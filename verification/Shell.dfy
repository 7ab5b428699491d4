/** The shell's path resolver, which works in place on character buffers, and the working
    directory it keeps. */
module Shell {
  import opened PathSpec

  const NUL := '\0'

  ghost predicate NoNul(s: string) {
    forall i :: 0 <= i < |s| ==> s[i] != NUL
  }

  // The buffer holds s as a C string.
  ghost predicate Holds(a: array<char>, s: string)
    reads a
  {
    |s| < a.Length && a[..|s|] == s && a[|s|] == NUL && NoNul(s)
  }

  // A slash at the end is dropped, but for the root.
  function Trim(p: string): (r: string) {
    if |p| > 1 && p[|p| - 1] == '/' then p[..|p| - 1] else p
  }

  /** What resolving yields in a buffer for n characters: the joined path is cut to fit before
      it is normalised, and the normal form of a path without a leading slash, which is one
      character longer, may be cut once more. */
  function Resolved(cwd: string, arg: string, n: nat): (r: string) {
    Trim(Cut(Normal(Cut(Joined(cwd, arg), n)), n))
  }

  // ---------- what resolving is good for ----------

  lemma OntoLength(stack: Stack, c: Comp)
    ensures |stack.Onto(c).Dir()| <= |stack.Dir()| + |c| + 1
  {
  }

  // Walking makes a directory longer by no more than what is walked and a slash.
  lemma {:induction false} WalkLength(stack: Stack, s: string, a: nat, b: nat)
    requires a <= b <= |s|
    ensures |Walk(stack, s, a, b).Dir()| <= |stack.Dir()| + (b - a) + 1
    decreases b - a
  {
    var e := SegEnd(s, a, b);
    OntoLength(stack, s[a..e]);
    if e < b { WalkLength(stack.Onto(s[a..e]), s, e + 1, b); }
  }

  // The normal form of an absolute path is no longer than the path.
  lemma NormalIsNoLonger(s: string)
    requires |s| > 0 && s[0] == '/'
    ensures |Normal(s)| <= |s|
  {
    FoldRooted(ONTO, Root, s);
    WalkLength(Root, s, 1, |s|);
  }

  /** From an absolute working directory every argument resolves to a normal path, even one that
      had to be cut; and one that fits resolves to the normal form of the joined path. */
  lemma ResolvedIsNormal(cwd: string, arg: string, n: nat)
    requires |cwd| > 0 && cwd[0] == '/' && n >= 1
    ensures IsNormal(Resolved(cwd, arg, n)) && |Resolved(cwd, arg, n)| <= n
    ensures |Joined(cwd, arg)| <= n ==> Resolved(cwd, arg, n) == Normal(Joined(cwd, arg))
  {
    var s := Cut(Joined(cwd, arg), n);
    assert |s| > 0 && s[0] == '/';
    NormalIsNormal(s);
    NormalIsNoLonger(s);
  }

  /** Resolving a resolved path again changes nothing, wherever one is. */
  lemma ResolvedTwice(cwd: string, arg: string, other: string, n: nat)
    requires |cwd| > 0 && cwd[0] == '/' && n >= 1
    ensures Resolved(other, Resolved(cwd, arg, n), n) == Resolved(cwd, arg, n)
  {
    var r := Resolved(cwd, arg, n);
    ResolvedIsNormal(cwd, arg, n);
    NormalIsFixed(r);
    assert Joined(other, r) == r && Cut(r, n) == r && Trim(r) == r;
  }

  lemma StaysNormal(cwd: string, arg: string, n: nat)
    requires IsNormal(cwd) && n >= 1
    ensures IsNormal(Resolved(cwd, arg, n))
  {
    ResolvedIsNormal(cwd, arg, n);
  }

  // ---------- the resolver ----------

  // Trimming the cut directory is trimming the cut path.
  lemma TrimDir(stack: Stack, n: nat)
    requires stack.AllProper() && n >= 1
    ensures Trim(Cut(stack.Dir(), n)) == Trim(Cut(stack.Render(), n))
  {
    if stack.Sub? { TrimCut(stack.Render(), n); }
  }

  lemma TrimCut(r: string, n: nat)
    requires |r| > 0 && r[|r| - 1] != '/' && n >= 1
    ensures Trim(Cut(r + "/", n)) == Trim(Cut(r, n))
  {
    if n <= |r| {
      assert Cut(r + "/", n) == Cut(r, n);
    } else {
      assert Trim(r + "/") == r;
    }
  }

  // Copy what fits of s to position n of a buffer.
  method CopyIn(s: string, out: array<char>, n: nat) returns (m: nat)
    requires n < out.Length
    modifies out
    ensures n <= m < out.Length && out[..m] == Cut(old(out[..n]) + s, out.Length - 1)
  {
    m := n;
    var i := 0;
    while i < |s| && m < out.Length - 1
      invariant 0 <= i <= |s| && n <= m < out.Length && m == n + i
      invariant out[..m] == old(out[..n]) + s[..i]
    {
      out[m] := s[i];
      m, i := m + 1, i + 1;
    }
    if i == |s| { assert s[..i] == s; }
  }

  // Build the unnormalised path.
  method BuildJoin(cwd: string, arg: string, out: array<char>) returns (n: nat)
    requires 1 <= out.Length && |cwd| < out.Length
    modifies out
    ensures n < out.Length && out[..n] == Cut(Joined(cwd, arg), out.Length - 1) && out[n] == NUL
  {
    if |arg| > 0 && arg[0] == '/' {
      n := CopyIn(arg, out, 0);
    } else {
      n := PutCwd(cwd, out);
      n := CopyIn(arg, out, n);
    }
    out[n] := NUL;
  }

  // The working directory, with a slash at the end if there is room for one.
  method PutCwd(cwd: string, out: array<char>) returns (n: nat)
    requires 1 <= out.Length && |cwd| < out.Length
    modifies out
    ensures n < out.Length
    ensures out[..n] == Cut(if |cwd| > 0 && cwd[|cwd| - 1] != '/' then cwd + "/" else cwd, out.Length - 1)
  {
    n := CopyIn(cwd, out, 0);
    assert out[..n] == cwd;
    if n > 0 && out[n - 1] != '/' && n < out.Length - 1 { n := PutSlash(out, n); }
  }

  method PutSlash(out: array<char>, n: nat) returns (m: nat)
    requires n < out.Length
    modifies out
    ensures m == n + 1 && out[..m] == old(out[..n]) + "/"
  {
    out[n] := '/';
    m := n + 1;
  }

  // Append a component and a slash, as far as they fit.
  method Push(tmp: array<char>, t: nat, c: string, ghost stack: Stack) returns (t': nat)
    requires t < tmp.Length && tmp[..t] == stack.Dir()
    modifies tmp
    ensures t' < tmp.Length && tmp[..t'] == Cut(Sub(stack, c).Dir(), tmp.Length - 1)
  {
    t' := CopyIn(c, tmp, t);
    if t' < tmp.Length - 1 { t' := PutSlash(tmp, t'); }
  }

  // Take the last component off.
  method Pop(tmp: array<char>, t: nat, ghost stack: Stack) returns (t': nat)
    requires t < tmp.Length && tmp[..t] == stack.Dir() && stack.AllProper()
    ensures t' <= t && tmp[..t'] == if stack.Root? then stack.Dir() else stack.parent.Dir()
  {
    t' := t;
    if t > 1 {
      ghost var d := stack.parent.Dir();
      assert tmp[..|d|] == d && forall k :: |d| <= k < t - 1 ==> tmp[k] == stack.name[k - |d|] by {
        assert forall k :: 0 <= k < t ==> tmp[k] == stack.Dir()[k];
      }
      t' := t - 1;
      while t' > 0 && tmp[t' - 1] != '/'
        invariant |d| <= t' <= t - 1
      {
        assert tmp[|d| - 1] == d[|d| - 1];
        t' := t' - 1;
      }
    }
  }

  // Where the component that starts at i ends.
  method ScanComponent(out: array<char>, i: nat, ghost s: string) returns (e: nat)
    requires Holds(out, s) && i <= |s|
    ensures e == SegEnd(s, i, |s|)
  {
    e := i;
    assert forall k :: 0 <= k < |s| ==> out[k] == out[..|s|][k] == s[k];
    while out[e] != NUL && out[e] != '/'
      invariant i <= e <= |s| && SegEnd(s, e, |s|) == SegEnd(s, i, |s|)
      decreases |s| - e
    {
      e := e + 1;
    }
  }

  // Put one component of the path onto the normalised part.
  method TakeComponent(tmp: array<char>, t: nat, c: Comp, ghost stack: Stack) returns (t': nat)
    requires t < tmp.Length && tmp[..t] == stack.Dir() && stack.AllProper()
    modifies tmp
    ensures t' < tmp.Length && tmp[..t'] == Cut(stack.Onto(c).Dir(), tmp.Length - 1)
  {
    if Skipped(c) { return t; }
    if Up(c) {
      t' := Pop(tmp, t, stack);
    } else {
      t' := Push(tmp, t, c, stack);
    }
  }

  // The normalised part of s[..i] is in tmp; the directory is not too long to go on.
  ghost predicate Building(tmp: array<char>, t: nat, stack: Stack, s: string, i: nat)
    reads tmp
  {
    i <= |s| < tmp.Length && t < tmp.Length && stack.AllProper()
    && |stack.Dir()| <= (if i < |s| then i + 1 else i + 2)
    && tmp[..t] == Cut(stack.Dir(), tmp.Length - 1)
    && Walk(stack, s, i, |s|) == WalkAll(Root, s)
  }

  // One component more.
  method Step(out: array<char>, tmp: array<char>, t: nat, i: nat, ghost s: string, ghost stack: Stack)
    returns (t': nat, i': nat, ghost stack': Stack)
    requires tmp != out && Holds(out, s) && Building(tmp, t, stack, s, i) && i < |s|
    modifies tmp
    ensures i < i' && Building(tmp, t', stack', s, i')
  {
    var e := ScanComponent(out, i, s);
    SegHasNoSlash(s, i, |s|);
    var c := out[i..e];
    assert c == s[i..e];
    stack' := stack.Onto(c);
    AfterComponent(stack, s, i);
    t' := TakeComponent(tmp, t, c, stack);
    assert e < |s| ==> out[e] == out[..|s|][e] == s[e];
    i' := if out[e] == '/' then e + 1 else e;
  }

  // What is left to walk after a component and its slash.
  lemma AfterComponent(stack: Stack, s: string, i: nat)
    requires i < |s| && stack.AllProper() && NoSlash(s[i..SegEnd(s, i, |s|)])
    ensures var e := SegEnd(s, i, |s|); var on := stack.Onto(s[i..e]);
      on.AllProper() && |on.Dir()| <= |stack.Dir()| + (e - i) + 1
      && Walk(on, s, if e < |s| then e + 1 else e, |s|) == Walk(stack, s, i, |s|)
  {
    OntoLength(stack, s[i..SegEnd(s, i, |s|)]);
    assert |s[|s|..|s|]| == 0;
  }

  // A slash at the end is left off.
  method TrimEnd(tmp: array<char>, t: nat) returns (t': nat)
    requires 1 <= t < tmp.Length
    ensures 1 <= t' <= t && tmp[..t'] == Trim(tmp[..t])
  {
    t' := if t > 1 && tmp[t - 1] == '/' then t - 1 else t;
    assert tmp[..t][..t'] == tmp[..t'];
  }

  // Collapse "." and ".." components, building the normal form in tmp.
  method Collapse(out: array<char>, tmp: array<char>, ghost s: string) returns (t: nat)
    requires tmp != out && Holds(out, s) && tmp.Length == out.Length >= 2
    modifies tmp
    ensures 1 <= t < tmp.Length && tmp[..t] == Trim(Cut(Normal(s), tmp.Length - 1)) && tmp[t] == NUL
  {
    ghost var stack;
    t, stack := PutComponents(out, tmp, s);
    TrimDir(stack, tmp.Length - 1);
    t := TrimEnd(tmp, t);
    tmp[t] := NUL;
  }

  method PutComponents(out: array<char>, tmp: array<char>, ghost s: string) returns (t: nat, ghost stack: Stack)
    requires tmp != out && Holds(out, s) && tmp.Length == out.Length >= 2
    modifies tmp
    ensures 1 <= t < tmp.Length && tmp[..t] == Cut(stack.Dir(), tmp.Length - 1)
    ensures stack.AllProper() && stack == WalkAll(Root, s)
  {
    tmp[0] := '/';
    t := 1;
    var i := if out[0] == '/' then 1 else 0;
    stack := Root;
    assert |s| > 0 ==> out[0] == out[..|s|][0] == s[0];
    if i == 1 { FoldRooted(ONTO, Root, s); }
    assert tmp[..t] == stack.Dir();
    assert forall k :: 0 <= k < |s| ==> out[k] == out[..|s|][k] == s[k];
    while out[i] != NUL
      invariant Building(tmp, t, stack, s, i) && forall k :: 0 <= k < |s| ==> out[k] == s[k]
      decreases |s| - i
    {
      t, i, stack := Step(out, tmp, t, i, s, stack);
    }
    assert |s[|s|..|s|]| == 0;
  }

  // ---------- no NUL gets in ----------

  ghost predicate StackNoNul(stack: Stack) {
    stack.Sub? ==> NoNul(stack.name) && StackNoNul(stack.parent)
  }

  lemma {:induction false} WalkNoNul(stack: Stack, s: string, a: nat, b: nat)
    requires NoNul(s) && a <= b <= |s| && StackNoNul(stack)
    ensures StackNoNul(Walk(stack, s, a, b))
    decreases b - a
  {
    var e := SegEnd(s, a, b);
    assert NoNul(s[a..e]);
    if e < b { WalkNoNul(stack.Onto(s[a..e]), s, e + 1, b); }
  }

  lemma {:induction false} DirNoNul(stack: Stack)
    requires StackNoNul(stack)
    ensures NoNul(stack.Dir()) && NoNul(stack.Render())
    decreases stack
  {
    if stack.Sub? { DirNoNul(stack.parent); }
  }

  lemma NormalNoNul(s: string)
    requires NoNul(s)
    ensures NoNul(Normal(s))
  {
    WalkNoNul(Root, s, 0, |s|);
    DirNoNul(WalkAll(Root, s));
  }

  // Normalise the path in a buffer, in place.
  method Normalise(out: array<char>, ghost s: string)
    requires Holds(out, s) && out.Length >= 2
    modifies out
    ensures Holds(out, Trim(Cut(Normal(s), out.Length - 1)))
  {
    var tmp := new char[out.Length];
    var t := Collapse(out, tmp, s);
    NormalNoNul(s);
    CopyBack(tmp, t, out);
    assert out[..t] == out[..t + 1][..t] == tmp[..t];
    assert out[t] == out[..t + 1][t] == tmp[..t + 1][t] == NUL;
  }

  /** Resolve an argument against a working directory, into `out`. */
  method ResolvePath(cwd: string, arg: string, out: array<char>)
    requires out.Length >= 2 && |cwd| < out.Length && NoNul(cwd) && NoNul(arg)
    modifies out
    ensures Holds(out, Resolved(cwd, arg, out.Length - 1))
  {
    var n := BuildJoin(cwd, arg, out);
    assert NoNul(Joined(cwd, arg));
    Normalise(out, Cut(Joined(cwd, arg), out.Length - 1));
  }

  method CopyBack(tmp: array<char>, t: nat, out: array<char>)
    requires tmp != out && t < tmp.Length == out.Length
    modifies out
    ensures out[..t + 1] == tmp[..t + 1]
  {
    var j := 0;
    while j <= t
      invariant 0 <= j <= t + 1 && out[..j] == tmp[..j]
    {
      out[j] := tmp[j];
      j := j + 1;
    }
  }

  // ---------- the working directory ----------

  class Shell {
    const cwd: array<char>
    // The working directory as a string.
    ghost var dir: string

    // The working directory is a normal path.
    ghost predicate Valid()
      reads this, cwd
    {
      cwd.Length >= 2 && Holds(cwd, dir) && IsNormal(dir)
    }

    constructor (pathMax: nat)
      requires pathMax >= 2
      ensures Valid() && dir == "/" && cwd.Length == pathMax
    {
      cwd := new char[pathMax](_ => NUL);
      dir := "/";
      new;
      cwd[0] := '/';
    }

    /** cd: go where the argument resolves to, if that can be entered. */
    method Cd(arg: string, enterable: bool)
      requires Valid() && NoNul(arg)
      modifies this, cwd
      ensures Valid()
      ensures dir == if enterable then Resolved(old(dir), arg, cwd.Length - 1) else old(dir)
    {
      var path := PathOf(arg);
      if enterable { Enter(path, arg); }
    }

    method Enter(path: array<char>, ghost arg: string)
      requires Valid() && path != cwd && path.Length == cwd.Length && Holds(path, Resolved(dir, arg, cwd.Length - 1))
      modifies this, cwd
      ensures Valid() && dir == Resolved(old(dir), arg, cwd.Length - 1)
    {
      ghost var target := Resolved(dir, arg, cwd.Length - 1);
      StaysNormal(dir, arg, cwd.Length - 1);
      CopyPath(path, target);
      dir := target;
    }

    // The argument, resolved.
    method PathOf(arg: string) returns (path: array<char>)
      requires Valid() && NoNul(arg)
      ensures fresh(path) && path.Length == cwd.Length && Holds(path, Resolved(dir, arg, cwd.Length - 1))
    {
      path := new char[cwd.Length];
      var here := cwd[..Length()];
      assert here == dir;
      ResolvePath(here, arg, path);
    }

    // The length of the C string in cwd.
    function Length(): (n: nat)
      requires cwd.Length >= 2 && Holds(cwd, dir)
      reads this, cwd
      ensures n == |dir|
    {
      LengthFrom(0)
    }

    function LengthFrom(i: nat): (n: nat)
      requires Holds(cwd, dir) && i <= |dir|
      reads this, cwd
      ensures n == |dir|
      decreases |dir| - i
    {
      assert i < |dir| ==> cwd[i] == dir[i];
      if cwd[i] == NUL then i else LengthFrom(i + 1)
    }

    method CopyPath(path: array<char>, ghost target: string)
      requires path != cwd && Holds(path, target) && path.Length == cwd.Length
      modifies cwd
      ensures Holds(cwd, target)
    {
      var i := 0;
      assert forall k :: 0 <= k < |target| ==> path[k] == path[..|target|][k] == target[k];
      while path[i] != NUL && i < cwd.Length - 1
        invariant 0 <= i <= |target| && cwd[..i] == target[..i]
        invariant forall k :: 0 <= k < |target| ==> path[k] == target[k]
        decreases cwd.Length - i
      {
        cwd[i] := path[i];
        i := i + 1;
      }
      cwd[i] := NUL;
    }

    /** Any run of cd commands: the working directory stays a normal path. */
    method Run(cds: seq<(string, bool)>)
      requires Valid() && forall i :: 0 <= i < |cds| ==> NoNul(cds[i].0)
      modifies this, cwd
      ensures Valid() && dir == Walked(old(dir), cds, cwd.Length - 1)
    {
      ghost var start := dir;
      var i := 0;
      assert cds[..0] == [];
      while i < |cds|
        invariant 0 <= i <= |cds| && Valid() && dir == Walked(start, cds[..i], cwd.Length - 1)
      {
        assert cds[..i + 1][..i] == cds[..i];
        Cd(cds[i].0, cds[i].1);
        i := i + 1;
      }
      assert cds[..i] == cds;
    }
  }

  /** Where a run of cd commands leads. */
  function Walked(start: string, cds: seq<(string, bool)>, n: nat): (dir: string)
    decreases |cds|
  {
    if cds == [] then start
    else
      var at := Walked(start, cds[..|cds| - 1], n);
      var (arg, enterable) := cds[|cds| - 1];
      if enterable then Resolved(at, arg, n) else at
  }
}
