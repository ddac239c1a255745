/** Path handling: Node's POSIX `path` functions that the pipeline calls
    (`normalize`, `join`, `isAbsolute`, `parse`, `basename`) and the
    project's own `normalize`, `parse` and `resolve` built on them
    (src/core/path.ts). File-system and home-directory queries are an
    oracle, `Env`. */
module Paths {
  import opened Js
  import opened Strings

  /** What the process can ask its environment: the home directory, whether
      a path exists (`existsSync`), and whether `lstatSync` reports a
      directory there. */
  datatype Env = Env(home: string, pathExists: string -> bool, lstatIsDirectory: string -> bool)

  /** `existsSync(p) && lstatSync(p).isDirectory()`. */
  predicate IsDirectory(env: Env, p: string)
  {
    env.pathExists(p) && env.lstatIsDirectory(p)
  }

  /** `path.isAbsolute` on POSIX. */
  predicate IsAbsolute(p: string)
  {
    |p| > 0 && p[0] == '/'
  }

  /** A segment that survives normalization: non-empty and slash-free. */
  predicate Kept(seg: string)
  {
    seg != "" && '/' !in seg
  }

  /** A plain name segment: kept, and neither `.` nor `..`. */
  predicate Plain(seg: string)
  {
    seg != "" && '/' !in seg && seg != "." && seg != ".."
  }

  /** One step of Node's segment collapsing: empty and `.` segments vanish, `..`
      removes the previous name, or is kept when the path may climb above its
      start (relative paths only). */
  function Step(acc: seq<string>, seg: string, allowAboveRoot: bool): seq<string>
  {
    if seg == "" || seg == "." then acc
    else if seg == ".." then
      if |acc| > 0 && acc[|acc| - 1] != ".." then acc[..|acc| - 1]
      else if allowAboveRoot then acc + [".."]
      else acc
    else acc + [seg]
  }

  /** Node's `normalizeString` over the segments between slashes. */
  function Collapse(acc: seq<string>, segs: seq<string>, allowAboveRoot: bool): (r: seq<string>)
    requires forall i | 0 <= i < |acc| :: Kept(acc[i])
    requires forall i | 0 <= i < |segs| :: '/' !in segs[i]
    ensures forall i | 0 <= i < |r| :: Kept(r[i])
    decreases |segs|
  {
    if |segs| == 0 then acc
    else Collapse(Step(acc, segs[0], allowAboveRoot), segs[1..], allowAboveRoot)
  }

  /** `path.normalize` on POSIX: resolves `.` and `..`, merges repeated
      slashes, keeps one trailing slash, and never returns the empty string. */
  function PosixNormalize(p: string): (r: string)
    ensures |r| > 0
    ensures IsAbsolute(r) <==> IsAbsolute(p)
  {
    if |p| == 0 then "."
    else
      var segs := Collapse([], Split(p, '/'), p[0] != '/');
      JoinStartsWithFirst(segs, '/');
      Assemble(p[0] == '/', p[|p| - 1] == '/', Join(segs, '/'))
  }

  /** The last part of `path.normalize`: the collapsed body gets back the
      leading and trailing slash of the input, and an empty body becomes the
      root or the current directory. */
  function Assemble(abs: bool, trailing: bool, body: string): (r: string)
    requires |body| > 0 ==> body[0] != '/'
    ensures |r| > 0
    ensures IsAbsolute(r) <==> abs
  {
    if |body| == 0 then (if abs then "/" else if trailing then "./" else ".")
    else (if abs then "/" else "") + body + (if trailing then "/" else "")
  }

  /** A join of kept segments begins with the first segment's first
      character, so it does not begin with a slash. */
  lemma JoinStartsWithFirst(segs: seq<string>, sep: char)
    requires forall i | 0 <= i < |segs| :: Kept(segs[i])
    ensures |Join(segs, sep)| > 0 ==> Join(segs, sep)[0] != '/'
  {
    if |segs| > 0 {
      assert Kept(segs[0]);
      assert Join(segs, sep)[0] == segs[0][0];
    }
  }

  /** `path.join` on POSIX: the non-empty arguments joined with `/` and
      normalized, or `.` when nothing is left. */
  function JoinPaths(parts: seq<string>): (r: string)
    ensures |r| > 0
    ensures |parts| > 0 && IsAbsolute(parts[0]) ==> IsAbsolute(r)
  {
    var kept := NonEmpty(parts);
    if |kept| == 0 then "."
    else
      assert |parts| > 0 && IsAbsolute(parts[0]) ==> kept[0] == parts[0];
      JoinFirstChar(kept);
      PosixNormalize(Join(kept, '/'))
  }

  /** The non-empty strings of `parts`, in order. */
  function NonEmpty(parts: seq<string>): (r: seq<string>)
    ensures forall i | 0 <= i < |r| :: r[i] != ""
    ensures |parts| > 0 && parts[0] != "" ==> |r| > 0 && r[0] == parts[0]
  {
    if |parts| == 0 then []
    else if parts[0] == "" then NonEmpty(parts[1..])
    else [parts[0]] + NonEmpty(parts[1..])
  }

  lemma JoinFirstChar(parts: seq<string>)
    requires |parts| > 0 && parts[0] != ""
    ensures |Join(parts, '/')| > 0 && Join(parts, '/')[0] == parts[0][0]
  {
  }

  /** `path.join(a, b)`. */
  function Join2(a: string, b: string): (r: string)
    ensures r != ""
  {
    JoinPaths([a, b])
  }

  /** `path.join(a, b, c)`. */
  function Join3(a: string, b: string, c: string): (r: string)
    ensures r != ""
  {
    JoinPaths([a, b, c])
  }

  /** `p` without its trailing slashes. */
  function StripTrailingSlashes(p: string): (r: string)
    ensures |r| <= |p| && r == p[..|r|]
    ensures |r| > 0 ==> r[|r| - 1] != '/'
    ensures forall j | |r| <= j < |p| :: p[j] == '/'
  {
    if |p| > 0 && p[|p| - 1] == '/' then StripTrailingSlashes(p[..|p| - 1]) else p
  }

  /** The `dir` field of POSIX `path.parse`: everything before the last
      slash that precedes the final name, `/` for a name directly under the
      root, and the empty string for a bare relative name. */
  function DirName(p: string): (d: string)
    ensures IsAbsolute(p) ==> IsAbsolute(d)
  {
    var core := StripTrailingSlashes(p);
    var j := LastIndexOf(core, '/');
    if j >= (if IsAbsolute(p) then 1 else 0) then p[..j]
    else if IsAbsolute(p) then "/" else ""
  }

  /** `path.basename` on POSIX: the final name, trailing slashes ignored. */
  function Basename(p: string): (b: string)
    ensures '/' !in b
  {
    var core := StripTrailingSlashes(p);
    core[LastIndexOf(core, '/') + 1..]
  }

  /** The project's `normalize`: the first `~`, wherever it stands, becomes
      the home directory, and the result is normalized. */
  function Normalize(env: Env, p: string): (r: string)
    ensures r != ""
    ensures '~' !in p ==> r == PosixNormalize(p)
  {
    PosixNormalize(ReplaceFirst(p, '~', env.home))
  }

  /** Only the first `~` is replaced by the home directory, wherever it
      stands in the path; a later `~` stays as it is. */
  lemma NormalizeFirstTilde(env: Env, before: string, after: string)
    requires '~' !in before
    ensures Normalize(env, before + "~" + after) == PosixNormalize(before + env.home + after)
  {
    var p := before + "~" + after;
    var i := |before|;
    assert p[i] == '~';
    assert forall j | 0 <= j < i :: p[j] == before[j];
    assert p[..i] == before && p[i + 1..] == after;
  }

  /** What the project's `parse` returns: the fields of `path.parse` it uses,
      plus the normalized path and two flags computed on it. */
  datatype ParsedPath = ParsedPath(
    full: string,
    root: string,
    dir: string,
    base: string,
    isAbsolute: bool,
    isDirectory: bool)

  /** The project's `parse`: normalize, then compute every field on the
      normalized path. */
  function Parse(env: Env, p: string): (pp: ParsedPath)
    ensures pp.full == Normalize(env, p) && pp.full != ""
    ensures pp.isAbsolute <==> IsAbsolute(pp.full)
    ensures pp.isDirectory <==> IsDirectory(env, pp.full)
    ensures pp.dir == DirName(pp.full) && pp.base == Basename(pp.full)
  {
    var full := Normalize(env, p);
    ParsedPath(
      full,
      if IsAbsolute(full) then "/" else "",
      DirName(full),
      Basename(full),
      IsAbsolute(full),
      IsDirectory(env, full))
  }

  /** The project's `resolve`: an absolute target is returned as it is;
      otherwise it is joined onto the base, which is the base path itself
      when it is a directory and its parent directory when it is not. */
  function Resolve(from: ParsedPath, to: ParsedPath): (r: string)
    ensures to.isAbsolute ==> r == to.full
    ensures !to.isAbsolute && from.isDirectory ==> r == Join2(from.full, to.full)
    ensures !to.isAbsolute && !from.isDirectory ==> r == Join2(from.dir, to.full)
    ensures to.full != "" ==> r != ""
  {
    if to.isAbsolute then to.full
    else Join2(if from.isDirectory then from.full else from.dir, to.full)
  }

  /** Plain names pass through the collapse unchanged. */
  lemma {:induction false} CollapsePlain(acc: seq<string>, segs: seq<string>, allowAboveRoot: bool)
    requires forall i | 0 <= i < |acc| :: Kept(acc[i])
    requires forall i | 0 <= i < |segs| :: '/' !in segs[i]
    requires forall i | 0 <= i < |segs| :: Plain(segs[i])
    ensures Collapse(acc, segs, allowAboveRoot) == acc + segs
    decreases |segs|
  {
    if |segs| > 0 {
      CollapsePlain(acc + [segs[0]], segs[1..], allowAboveRoot);
      assert acc + [segs[0]] + segs[1..] == acc + segs;
    }
  }

  /** The path spelled by plain names, absolute (rooted at `/`) or relative. */
  function Spell(abs: bool, names: seq<string>): string
  {
    (if abs then "/" else "") + Join(names, '/')
  }

  /** A path spelled from plain names is already normalized. */
  lemma NormalizeSpelled(abs: bool, names: seq<string>)
    requires |names| >= 1
    requires forall i | 0 <= i < |names| :: Plain(names[i])
    ensures PosixNormalize(Spell(abs, names)) == Spell(abs, names)
  {
    var body := Join(names, '/');
    var p := Spell(abs, names);
    SpelledEnd(names);
    SplitJoin(names, '/');
    CollapsePlain([], names, !abs);
    assert [] + names == names;
    var segs := Collapse([], Split(p, '/'), !abs);
    if abs {
      SplitPrefix("", body, '/');
      assert "" + ['/'] + body == p;
      assert Split(p, '/') == [""] + names;
      assert segs == Collapse([], names, false);
    } else {
      assert p == body;
    }
    assert segs == names;
    assert p[|p| - 1] == body[|body| - 1];
    assert PosixNormalize(p) == Assemble(abs, false, body);
  }

  /** A join of plain names ends inside its last name, not on a slash. */
  lemma SpelledEnd(names: seq<string>)
    requires |names| >= 1
    requires forall i | 0 <= i < |names| :: Plain(names[i])
    ensures var body := Join(names, '/'); |body| > 0 && body[0] != '/' && body[|body| - 1] != '/'
  {
    var n := |names|;
    if n > 1 {
      JoinAppend(names[..n - 1], [names[n - 1]], '/');
      assert names[..n - 1] + [names[n - 1]] == names;
    }
  }

  /** The parent directory and final name of a path spelled from names. */
  lemma DirNameSpelled(names: seq<string>)
    requires |names| >= 1
    requires forall i | 0 <= i < |names| :: Plain(names[i])
    ensures |names| > 1 ==> DirName(Spell(true, names)) == Spell(true, names[..|names| - 1])
    ensures |names| == 1 ==> DirName(Spell(true, names)) == "/"
    ensures Basename(Spell(true, names)) == names[|names| - 1]
  {
    var n := |names|;
    var last := names[n - 1];
    assert Plain(last);
    var head := if n == 1 then "" else Spell(true, names[..n - 1]);
    if n > 1 {
      SpelledEnd(names[..n - 1]);
    }
    SplitAtLastAs(names, head, last);
    DirNameOfLast(head, last);
  }

  /** `SplitAtLast` with the parent's spelling and the last name named. */
  lemma SplitAtLastAs(names: seq<string>, head: string, last: string)
    requires |names| >= 1 && last == names[|names| - 1]
    requires head == (if |names| == 1 then "" else Spell(true, names[..|names| - 1]))
    ensures Spell(true, names) == head + "/" + last
  {
    SplitAtLast(names);
  }

  /** The parent and final name of `head/last`, for an absolute or empty
      `head` and a slash-free `last`. */
  lemma DirNameOfLast(head: string, last: string)
    requires last != "" && '/' !in last
    requires head == "" || (IsAbsolute(head) && |head| >= 2)
    ensures DirName(head + "/" + last) == (if head == "" then "/" else head)
    ensures Basename(head + "/" + last) == last
  {
    var p := head + "/" + last;
    NoTrailingSlash(p, last);
    LastIndexOfBeforeName(head, last, '/');
    assert IsAbsolute(p) by {
      assert p[0] == (if head == "" then '/' else head[0]);
    }
    assert p[..|head|] == head;
    assert p[|head| + 1..] == last;
  }

  /** A path ending in a slash-free name has no trailing slash to strip. */
  lemma NoTrailingSlash(p: string, last: string)
    requires last != "" && '/' !in last
    requires |p| >= |last| && p[|p| - |last|..] == last
    ensures StripTrailingSlashes(p) == p
  {
    assert p[|p| - 1] == last[|last| - 1];
  }

  /** A spelled absolute path is its parent's spelling, a slash, and its
      last name. */
  lemma SplitAtLast(names: seq<string>)
    requires |names| >= 1
    ensures Spell(true, names)
         == (if |names| == 1 then "" else Spell(true, names[..|names| - 1])) + "/" + names[|names| - 1]
  {
    var n := |names|;
    if n > 1 {
      JoinAppend(names[..n - 1], [names[n - 1]], '/');
      assert names[..n - 1] + [names[n - 1]] == names;
    }
  }

  /** A path spelled from plain names without `~` parses to itself. */
  lemma ParseSpelled(env: Env, abs: bool, names: seq<string>)
    requires |names| >= 1
    requires forall i | 0 <= i < |names| :: Plain(names[i]) && '~' !in names[i]
    ensures Parse(env, Spell(abs, names)).full == Spell(abs, names)
    ensures Parse(env, Spell(abs, names)).isAbsolute == abs
  {
    JoinExcludes(names, '/', '~');
    NormalizeSpelled(abs, names);
  }

  /** Joining a spelled relative path onto a spelled absolute one spells the
      concatenated names. */
  lemma JoinSpelled(dirNames: seq<string>, relNames: seq<string>)
    requires |dirNames| >= 1 && |relNames| >= 1
    requires forall i | 0 <= i < |dirNames| :: Plain(dirNames[i])
    requires forall i | 0 <= i < |relNames| :: Plain(relNames[i])
    ensures Join2(Spell(true, dirNames), Spell(false, relNames)) == Spell(true, dirNames + relNames)
  {
    var a := Spell(true, dirNames);
    var b := Spell(false, relNames);
    SpelledEnd(relNames);
    assert NonEmpty([a, b]) == [a, b] by {
      assert [a, b][1..] == [b];
      assert NonEmpty([b]) == [b];
    }
    assert Join([a, b], '/') == a + "/" + b by {
      assert [a, b][1..] == [b];
    }
    JoinAppend(dirNames, relNames, '/');
    assert a + "/" + b == Spell(true, dirNames + relNames);
    NormalizeSpelled(true, dirNames + relNames);
  }

  /** A relative path is resolved inside a base that is a directory. */
  lemma ResolveIntoDirectory(env: Env, dirNames: seq<string>, relNames: seq<string>)
    requires |dirNames| >= 1 && |relNames| >= 1
    requires forall i | 0 <= i < |dirNames| :: Plain(dirNames[i]) && '~' !in dirNames[i]
    requires forall i | 0 <= i < |relNames| :: Plain(relNames[i]) && '~' !in relNames[i]
    requires IsDirectory(env, Spell(true, dirNames))
    ensures Resolve(Parse(env, Spell(true, dirNames)), Parse(env, Spell(false, relNames)))
         == Spell(true, dirNames + relNames)
  {
    ParseSpelled(env, true, dirNames);
    ParseSpelled(env, false, relNames);
    JoinSpelled(dirNames, relNames);
  }

  /** A relative path is resolved beside a base that is a file: inside the
      file's directory. */
  lemma ResolveBesideFile(env: Env, dirNames: seq<string>, fileName: string, relNames: seq<string>)
    requires |dirNames| >= 1 && |relNames| >= 1
    requires forall i | 0 <= i < |dirNames| :: Plain(dirNames[i]) && '~' !in dirNames[i]
    requires forall i | 0 <= i < |relNames| :: Plain(relNames[i]) && '~' !in relNames[i]
    requires Plain(fileName) && '~' !in fileName
    requires !IsDirectory(env, Spell(true, dirNames + [fileName]))
    ensures Resolve(Parse(env, Spell(true, dirNames + [fileName])), Parse(env, Spell(false, relNames)))
         == Spell(true, dirNames + relNames)
  {
    var names := dirNames + [fileName];
    assert names[..|names| - 1] == dirNames;
    ParseSpelled(env, true, names);
    ParseSpelled(env, false, relNames);
    DirNameSpelled(names);
    JoinSpelled(dirNames, relNames);
  }

  /** With the base `/a/b` a directory, `c/d` resolves to `/a/b/c/d`. */
  lemma ResolveRelativeExample(env: Env)
    requires IsDirectory(env, "/a/b")
    ensures Resolve(Parse(env, "/a/b"), Parse(env, "c/d")) == "/a/b/c/d"
  {
    var dirNames, relNames := ["a", "b"], ["c", "d"];
    assert Join(dirNames[1..], '/') == "b";
    assert Spell(true, dirNames) == "/a/b";
    assert Join(relNames[1..], '/') == "d";
    assert Spell(false, relNames) == "c/d";
    var all := dirNames + relNames;
    assert all == ["a", "b", "c", "d"];
    assert Join(all[3..], '/') == "d";
    assert Join(all[2..], '/') == "c/d";
    assert Join(all[1..], '/') == "b/c/d";
    assert Spell(true, all) == "/a/b/c/d";
    ResolveIntoDirectory(env, dirNames, relNames);
  }

  /** An absolute target such as `/x/y` resolves to itself, whatever the base. */
  lemma ResolveAbsoluteExample(env: Env, from: ParsedPath)
    ensures Resolve(from, Parse(env, "/x/y")) == "/x/y"
  {
    var names := ["x", "y"];
    assert Join(names[1..], '/') == "y";
    assert Spell(true, names) == "/x/y";
    ParseSpelled(env, true, names);
  }

  /** Resolving against an absolute base always yields an absolute path. */
  lemma ResolveFromAbsolute(env: Env, s: string, to: ParsedPath)
    requires to.isAbsolute ==> IsAbsolute(to.full)
    requires IsAbsolute(Normalize(env, s))
    ensures IsAbsolute(Resolve(Parse(env, s), to))
  {
  }

  /** Replacing the home-directory shorthand never turns an absolute path
      into a relative one: a leading slash is not a `~`. */
  lemma NormalizeKeepsAbsolute(env: Env, p: string)
    requires IsAbsolute(p)
    ensures IsAbsolute(Normalize(env, p))
  {
    var q := ReplaceFirst(p, '~', env.home);
    var i := IndexOf(p, '~');
    if i >= 0 {
      assert q == p[..i] + env.home + p[i + 1..];
      assert q[0] == p[0];
    }
  }

  /** `path.basename(p).replace(/\..+/, '')`: the final name up to its first
      `.` that has a character after it. Page titles and post slugs are
      derived this way. */
  function Stem(p: string): (r: string)
    ensures '/' !in r && |r| <= |Basename(p)|
  {
    StripDotSuffix(Basename(p))
  }

  /** The stem of `/.../stem.ext` is `stem` when `stem` has no `.`. */
  lemma StemSpelled(names: seq<string>, stem: string, ext: string)
    requires |names| >= 1
    requires forall i | 0 <= i < |names| :: Plain(names[i])
    requires names[|names| - 1] == stem + "." + ext
    requires '.' !in stem && ext != ""
    requires forall j | 0 <= j < |stem + "." + ext| :: !IsLineTerminator((stem + "." + ext)[j])
    ensures Stem(Spell(true, names)) == stem
  {
    DirNameSpelled(names);
    var last := stem + "." + ext;
    StripDotSuffixSingleLine(last);
    assert last[|stem|] == '.';
  }

  /** `path.join(a, b, c)` is `path.join(a, b + '/' + c)` when none is empty. */
  lemma Join3AsJoin2(a: string, b: string, c: string)
    requires a != "" && b != "" && c != ""
    ensures Join3(a, b, c) == Join2(a, b + "/" + c)
  {
    var bc := b + "/" + c;
    assert [a, b, c][1..] == [b, c] && [b, c][1..] == [c] && [a, bc][1..] == [bc];
    assert NonEmpty([c]) == [c];
    assert NonEmpty([b, c]) == [b, c];
    assert NonEmpty([a, b, c]) == [a, b, c];
    assert NonEmpty([bc]) == [bc];
    assert NonEmpty([a, bc]) == [a, bc];
    assert Join([b, c], '/') == bc;
    assert Join([a, b, c], '/') == a + "/" + bc;
    assert Join([a, bc], '/') == a + "/" + bc;
  }
}
