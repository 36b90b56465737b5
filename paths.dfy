/**
 * File system paths as lists of components. `os.path.realpath` is modelled lexically (no
 * symbolic links): `.` and empty components are dropped and `..` removes the previous
 * component, stopping at the root. `os.path.commonpath` compares component by component.
 */
module Paths {
  import opened Text

  /** An absolute path, root first. */
  type Components = seq<string>

  /** Every component is a real name: not empty, not `.` or `..`, no `/` inside. */
  predicate IsCanonical(p: Components) {
    forall i :: 0 <= i < |p| ==> p[i] != "" && p[i] != "." && p[i] != ".." && '/' !in p[i]
  }

  /** One component of a path applied to the directory reached so far. */
  function Step(dir: Components, c: string): Components {
    if c == "" || c == "." then dir
    else if c == ".." then (if dir == [] then [] else dir[..|dir| - 1])
    else dir + [c]
  }

  /** The components applied left to right, starting at `dir`. */
  function Resolve(dir: Components, comps: seq<string>): Components
    decreases comps
  {
    if comps == [] then dir else Resolve(Step(dir, comps[0]), comps[1..])
  }

  /** `os.path.realpath(p)` when the process working directory is `cwd`. */
  function RealPath(cwd: Components, p: string): (r: Components)
    ensures IsCanonical(cwd) ==> IsCanonical(r)
  {
    var comps := Split(p, '/');
    ResolveCanonical(if StartsWith(p, "/") then [] else cwd, comps);
    if StartsWith(p, "/") then Resolve([], comps) else Resolve(cwd, comps)
  }

  /** Resolving separator-free components from a canonical directory gives a canonical path. */
  lemma {:induction false} ResolveCanonical(dir: Components, comps: seq<string>)
    requires forall i :: 0 <= i < |comps| ==> '/' !in comps[i]
    ensures IsCanonical(dir) ==> IsCanonical(Resolve(dir, comps))
    decreases comps
  {
    if comps != [] {
      ResolveCanonical(Step(dir, comps[0]), comps[1..]);
    }
  }

  /** The longest common leading part of two paths, as `os.path.commonpath([a, b])`. */
  function CommonPrefix(a: Components, b: Components): (r: Components)
    ensures r <= a && r <= b
    ensures |r| == |a| || |r| == |b| || a[|r|] != b[|r|]
  {
    if a == [] || b == [] || a[0] != b[0] then []
    else [a[0]] + CommonPrefix(a[1..], b[1..])
  }

  /** The containment test `commonpath([base]) == commonpath([base, target])`. */
  predicate Within(base: Components, target: Components) {
    CommonPrefix(base, target) == base
  }

  /** The test holds exactly when the base is a leading part of the target. */
  lemma WithinIsPrefix(base: Components, target: Components)
    ensures Within(base, target) <==> base <= target
  {
  }

  /** A name that shares the text of the base but not its last component is not inside it. */
  lemma SiblingNotWithin(parent: Components, name: string, other: string, rest: Components)
    requires name != other
    ensures !Within(parent + [name], parent + [other] + rest)
  {
    WithinIsPrefix(parent + [name], parent + [other] + rest);
    assert (parent + [name])[|parent|] != (parent + [other] + rest)[|parent|];
  }

  /** Resolving in two steps is resolving the concatenated components. */
  lemma {:induction false} ResolveAppend(dir: Components, xs: seq<string>, ys: seq<string>)
    ensures Resolve(dir, xs + ys) == Resolve(Resolve(dir, xs), ys)
    decreases xs
  {
    if xs != [] {
      assert (xs + ys)[0] == xs[0] && (xs + ys)[1..] == xs[1..] + ys;
      ResolveAppend(Step(dir, xs[0]), xs[1..], ys);
    } else {
      assert xs + ys == ys;
    }
  }

  /** Without `..` components a path never leaves the directory it is resolved from. */
  lemma {:induction false} ResolveStaysBelow(dir: Components, comps: seq<string>)
    requires forall i :: 0 <= i < |comps| ==> comps[i] != ".."
    ensures dir <= Resolve(dir, comps)
    decreases comps
  {
    if comps != [] {
      ResolveStaysBelow(Step(dir, comps[0]), comps[1..]);
    }
  }

  /** `Split` on a string that starts with the separator. */
  lemma SplitSepFirst(t: string)
    ensures Split(['/'] + t, '/') == [[]] + Split(t, '/')
  {
    assert (['/'] + t)[1..] == t;
  }

  /** `Split` on a string that starts with another character. */
  lemma SplitCharFirst(c: char, t: string)
    requires c != '/'
    ensures Split([c] + t, '/') == [[c] + Split(t, '/')[0]] + Split(t, '/')[1..]
  {
    assert ([c] + t)[1..] == t;
  }

  lemma HeadMerge(c: char, S: seq<string>, T: seq<string>)
    requires |S| >= 1
    ensures [[c] + (S + T)[0]] + (S + T)[1..] == ([[c] + S[0]] + S[1..]) + T
  {
    assert (S + T)[1..] == S[1..] + T;
  }

  /** Splitting around one separator. */
  lemma {:induction false} SplitAround(a: string, b: string)
    ensures Split(a + "/" + b, '/') == Split(a, '/') + Split(b, '/')
  {
    if a == [] {
      assert a + "/" + b == ['/'] + b;
      SplitSepFirst(b);
    } else {
      var t := a[1..] + "/" + b;
      assert a + "/" + b == [a[0]] + t;
      assert a == [a[0]] + a[1..];
      SplitAround(a[1..], b);
      if a[0] == '/' {
        SplitSepFirst(t);
        SplitSepFirst(a[1..]);
      } else {
        SplitCharFirst(a[0], t);
        SplitCharFirst(a[0], a[1..]);
        HeadMerge(a[0], Split(a[1..], '/'), Split(b, '/'));
      }
    }
  }

  /**
   * `realpath(base + rel)` for a relative `base` that ends with `/`: `rel`'s components
   * resolved from `realpath(base)`.
   */
  lemma RealPathJoin(cwd: Components, dir: string, rel: string)
    requires |dir| > 0 && dir[0] != '/'
    ensures RealPath(cwd, dir + "/" + rel) == Resolve(RealPath(cwd, dir + "/"), Split(rel, '/'))
  {
    var d := Split(dir, '/');
    SplitAround(dir, rel);
    SplitAround(dir, "");
    assert dir + "/" + "" == dir + "/";
    assert (dir + "/" + rel)[0] == dir[0] && (dir + "/")[0] == dir[0];
    ResolveAppend(cwd, d, Split(rel, '/'));
    ResolveAppend(cwd, d, [""]);
  }
}
