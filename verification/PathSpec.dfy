/** Path normalisation over a stack of components. */
module PathSpec {

  type Comp = string

  // "" and "."
  predicate Skipped(c: Comp) { |c| == 0 || (|c| == 1 && c[0] == '.') }

  // ".."
  predicate Up(c: Comp) { |c| == 2 && c[0] == '.' && c[1] == '.' }

  predicate NoSlash(c: Comp) {
    forall j :: 0 <= j < |c| ==> c[j] != '/'
  }

  predicate Proper(c: Comp) {
    !Skipped(c) && !Up(c) && NoSlash(c)
  }

  /** A directory, by its components from the root. */
  datatype Stack = Root | Sub(parent: Stack, name: Comp) {
    /** One component further. */
    function Onto(c: Comp): Stack {
      if Skipped(c) then this
      else if Up(c) then if Root? then Root else parent
      else Sub(this, c)
    }

    /** Every component followed by a slash. */
    function Dir(): (d: string)
      ensures |d| >= 1 && d[0] == '/' && d[|d| - 1] == '/'
    {
      if Root? then "/" else parent.Dir() + name + "/"
    }

    /** As a path: no slash at the end but for the root. */
    function Render(): (p: string)
      ensures |p| >= 1 && p[0] == '/'
    {
      if Root? then "/" else parent.Dir() + name
    }

    predicate AllProper() {
      Sub? ==> Proper(name) && parent.AllProper()
    }
  }

  // ---------- the components of a string ----------

  // The end of the component that starts at a, in s[a..b].
  function SegEnd(s: string, a: nat, b: nat): (e: nat)
    requires a <= b <= |s|
    ensures a <= e <= b && (e < b ==> s[e] == '/')
    decreases b - a
  {
    if a < b && s[a] != '/' then SegEnd(s, a + 1, b) else a
  }

  lemma {:induction false} SegHasNoSlash(s: string, a: nat, b: nat)
    requires a <= b <= |s|
    ensures forall j :: a <= j < SegEnd(s, a, b) ==> s[j] != '/'
    decreases b - a
  {
    if a < b && s[a] != '/' { SegHasNoSlash(s, a + 1, b); }
  }

  /** Fold a function over the components of s[a..b], empty ones included. */
  function Fold<S>(f: (S, Comp) -> S, st: S, s: string, a: nat, b: nat): (r: S)
    requires a <= b <= |s|
    decreases b - a
  {
    var e := SegEnd(s, a, b);
    if e == b then f(st, s[a..e]) else Fold(f, f(st, s[a..e]), s, e + 1, b)
  }

  // s[c..e] and t[a..b] are the same characters.
  ghost predicate Alike(s: string, c: nat, e: nat, t: string, a: nat, b: nat) {
    c <= e <= |s| && a <= b <= |t| && e - c == b - a && forall j :: a <= j < b ==> t[j] == s[j + (c - a)]
  }

  // The same characters have the same components, wherever they are.
  lemma {:induction false} FoldSame<S>(f: (S, Comp) -> S, st: S, s: string, c: nat, e: nat, t: string, a: nat, b: nat)
    requires Alike(s, c, e, t, a, b)
    ensures Fold(f, st, s, c, e) == Fold(f, st, t, a, b)
    decreases b - a
  {
    SegEndSame(s, c, e, t, a, b);
    var m, n := SegEnd(s, c, e), SegEnd(t, a, b);
    SliceSame(s, c, e, t, a, b, m, n);
    if n < b { FoldSame(f, f(st, t[a..n]), s, m + 1, e, t, n + 1, b); }
  }

  lemma SliceSame(s: string, c: nat, e: nat, t: string, a: nat, b: nat, m: nat, n: nat)
    requires Alike(s, c, e, t, a, b) && c <= m <= e && m - c == n - a
    ensures s[c..m] == t[a..n]
  {
    assert forall i :: 0 <= i < m - c ==> s[c..m][i] == s[(a + i) + (c - a)] && t[a..n][i] == t[a + i];
  }

  lemma {:induction false} SegEndSame(s: string, c: nat, e: nat, t: string, a: nat, b: nat)
    requires Alike(s, c, e, t, a, b)
    ensures SegEnd(s, c, e) - c == SegEnd(t, a, b) - a
    decreases b - a
  {
    if a < b {
      assert t[a] == s[a + (c - a)];
      if t[a] != '/' { SegEndSame(s, c + 1, e, t, a + 1, b); }
    }
  }

  // At a slash a fold can rest.
  lemma {:induction false} FoldApart<S>(f: (S, Comp) -> S, st: S, s: string, a: nat, m: nat, b: nat)
    requires a <= m < b <= |s| && s[m] == '/'
    ensures Fold(f, st, s, a, b) == Fold(f, Fold(f, st, s, a, m), s, m + 1, b)
    decreases m - a
  {
    var e := SegEnd(s, a, m);
    SegEndBefore(s, a, m, b);
    if e < m { FoldApart(f, f(st, s[a..e]), s, e + 1, m, b); }
  }

  lemma {:induction false} SegEndBefore(s: string, a: nat, m: nat, b: nat)
    requires a <= m < b <= |s| && s[m] == '/'
    ensures SegEnd(s, a, b) == SegEnd(s, a, m)
    decreases m - a
  {
    if a < m && s[a] != '/' { SegEndBefore(s, a + 1, m, b); }
  }

  // Two strings with a slash between them: the components of the one, then those of the other.
  lemma FoldJoin<S>(f: (S, Comp) -> S, st: S, q: string, r: string, a: nat)
    requires a <= |q|
    ensures var p := q + "/" + r; Fold(f, st, p, a, |p|) == Fold(f, Fold(f, st, q, a, |q|), r, 0, |r|)
  {
    JoinSlices(q, r, a);
    FoldAround(f, st, q + "/" + r, q, r, a);
  }

  lemma FoldAround<S>(f: (S, Comp) -> S, st: S, p: string, q: string, r: string, a: nat)
    requires a <= |q| < |p| && p[|q|] == '/'
    requires Alike(p, a, |q|, q, a, |q|) && Alike(p, |q| + 1, |p|, r, 0, |r|)
    ensures Fold(f, st, p, a, |p|) == Fold(f, Fold(f, st, q, a, |q|), r, 0, |r|)
  {
    var mid := Fold(f, st, q, a, |q|);
    FoldApart(f, st, p, a, |q|, |p|);
    FoldSame(f, st, p, a, |q|, q, a, |q|);
    FoldSame(f, mid, p, |q| + 1, |p|, r, 0, |r|);
  }

  lemma JoinSlices(q: string, r: string, a: nat)
    requires a <= |q|
    ensures var p := q + "/" + r;
      |q| < |p| && p[|q|] == '/' && Alike(p, a, |q|, q, a, |q|) && Alike(p, |q| + 1, |p|, r, 0, |r|)
  {
  }

  // A component without slashes is folded in one step.
  lemma {:induction false} OnePart(s: string, a: nat, b: nat)
    requires a <= b <= |s| && NoSlash(s[a..b])
    ensures SegEnd(s, a, b) == b
    decreases b - a
  {
    if a < b {
      assert s[a] == s[a..b][0];
      assert s[a + 1..b] == s[a..b][1..];
      OnePart(s, a + 1, b);
    }
  }

  // A leading slash is an empty component.
  lemma FoldRooted<S>(f: (S, Comp) -> S, st: S, p: string)
    requires |p| > 0 && p[0] == '/'
    ensures Fold(f, st, p, 0, |p|) == Fold(f, f(st, ""), p, 1, |p|)
  {
    assert SegEnd(p, 0, |p|) == 0 && p[0..0] == "";
  }

  // ---------- walking a path ----------

  const ONTO: (Stack, Comp) -> Stack := (st: Stack, c: Comp) => st.Onto(c)
  const PROPER: (bool, Comp) -> bool := (ok: bool, c: Comp) => ok && Proper(c)

  /** The stack after walking the components of s[a..b], one by one. */
  function Walk(stack: Stack, s: string, a: nat, b: nat): Stack
    requires a <= b <= |s|
  {
    Fold(ONTO, stack, s, a, b)
  }

  function WalkAll(stack: Stack, s: string): Stack {
    Walk(stack, s, 0, |s|)
  }

  // All components of s[a..b] are proper.
  predicate ProperParts(s: string, a: nat, b: nat)
    requires a <= b <= |s|
  {
    Fold(PROPER, true, s, a, b)
  }

  /** The normal form of a path, walked from the root. */
  function Normal(s: string): (p: string) {
    WalkAll(Root, s).Render()
  }

  /** Absolute, with no empty, "." or ".." component, and no slash at the end but for the root. */
  predicate IsNormal(p: string) {
    |p| > 0 && p[0] == '/' && (|p| > 1 ==> p[|p| - 1] != '/' && ProperParts(p, 1, |p|))
  }

  /** An argument seen from the working directory. */
  function Joined(cwd: string, arg: string): (s: string) {
    if |arg| > 0 && arg[0] == '/' then arg
    else if |cwd| > 0 && cwd[|cwd| - 1] != '/' then cwd + "/" + arg
    else cwd + arg
  }

  function Cut(s: string, n: nat): (c: string)
    ensures |c| <= n
  {
    if |s| <= n then s else s[..n]
  }

  // ---------- normal paths ----------

  // Once a component was not proper, the whole is not.
  lemma {:induction false} OnceImproper(s: string, a: nat, b: nat)
    requires a <= b <= |s|
    ensures !Fold(PROPER, false, s, a, b)
    decreases b - a
  {
    var e := SegEnd(s, a, b);
    if e < b { OnceImproper(s, e + 1, b); }
  }

  // Walking the path of a stack builds the stack again.
  lemma {:induction false} WalkRender(stack: Stack)
    requires stack.AllProper() && stack.Sub?
    ensures var p := stack.Render(); |p| > 1 && Walk(Root, p, 1, |p|) == stack && ProperParts(p, 1, |p|)
    decreases stack
  {
    var q, c := stack.parent.Render(), stack.name;
    assert c[0..|c|] == c;
    OnePart(c, 0, |c|);
    if stack.parent.Root? {
      RootPart(c);
    } else {
      WalkRender(stack.parent);
      assert stack.Render() == q + "/" + c;
      FoldJoin(ONTO, Root, q, c, 1);
      FoldJoin(PROPER, true, q, c, 1);
    }
  }

  lemma RootPart(c: Comp)
    requires Proper(c)
    ensures var p := "/" + c; |p| > 1 && Walk(Root, p, 1, |p|) == Sub(Root, c) && ProperParts(p, 1, |p|)
  {
    var p := "/" + c;
    assert p[1..|p|] == c;
    OnePart(p, 1, |p|);
  }

  lemma {:induction false} WalkKeeps(stack: Stack, s: string, a: nat, b: nat)
    requires a <= b <= |s| && stack.AllProper()
    ensures Walk(stack, s, a, b).AllProper()
    decreases b - a
  {
    var e := SegEnd(s, a, b);
    SegHasNoSlash(s, a, b);
    if e < b { WalkKeeps(stack.Onto(s[a..e]), s, e + 1, b); }
  }

  lemma RenderIsNormal(stack: Stack)
    requires stack.AllProper()
    ensures IsNormal(stack.Render()) && Normal(stack.Render()) == stack.Render()
  {
    var p := stack.Render();
    FoldRooted(ONTO, Root, p);
    if stack.Root? {
      assert |p[1..1]| == 0;
    } else {
      WalkRender(stack);
      assert p[|p| - 1] == stack.name[|stack.name| - 1];
    }
  }

  /** The normal form is normal, and normalising it again changes nothing. */
  lemma NormalIsNormal(s: string)
    ensures IsNormal(Normal(s)) && Normal(Normal(s)) == Normal(s)
  {
    WalkKeeps(Root, s, 0, |s|);
    RenderIsNormal(WalkAll(Root, s));
  }

  /** Any normal path is its own normal form. */
  lemma NormalIsFixed(p: string)
    requires IsNormal(p)
    ensures Normal(p) == p
  {
    FoldRooted(ONTO, Root, p);
    if |p| == 1 {
      assert |p[1..1]| == 0;
    } else {
      RenderOfWalk(p, 1, Root);
    }
  }

  // Walking proper components puts the path together again.
  lemma {:induction false} RenderOfWalk(p: string, k: nat, stack: Stack)
    requires 1 <= k <= |p| && p[..k] == stack.Dir() && ProperParts(p, k, |p|)
    ensures Walk(stack, p, k, |p|).Render() == p
    decreases |p| - k
  {
    var e := SegEnd(p, k, |p|);
    var c := p[k..e];
    ProperStep(stack, p, k);
    TakeOn(p, k, e);
    if e < |p| { RenderOfWalk(p, e + 1, Sub(stack, c)); }
  }

  // Walking one proper component.
  lemma ProperStep(stack: Stack, p: string, k: nat)
    requires k <= |p| && ProperParts(p, k, |p|)
    ensures var e := SegEnd(p, k, |p|);
      if e == |p| then Walk(stack, p, k, |p|) == Sub(stack, p[k..e])
      else ProperParts(p, e + 1, |p|) && Walk(stack, p, k, |p|) == Walk(Sub(stack, p[k..e]), p, e + 1, |p|)
  {
    var e := SegEnd(p, k, |p|);
    if e < |p| && !Proper(p[k..e]) { OnceImproper(p, e + 1, |p|); }
  }

  lemma TakeOn(p: string, a: nat, b: nat)
    requires a <= b <= |p|
    ensures p[..a] + p[a..b] == p[..b]
    ensures b == |p| ==> p[..b] == p
    ensures b < |p| && p[b] == '/' ==> p[..b + 1] == p[..b] + "/"
  {
  }

  /** A relative argument is walked from where the working directory's own components lead. */
  lemma RelativeStartsAtCwd(cwd: string, arg: string)
    requires IsNormal(cwd) && (|arg| == 0 || arg[0] != '/')
    ensures Normal(Joined(cwd, arg)) == WalkAll(WalkAll(Root, cwd), arg).Render()
  {
    FoldRooted(ONTO, Root, cwd);
    if |cwd| == 1 {
      assert |cwd[1..1]| == 0;
      FromRoot(cwd, arg);
    } else {
      FoldJoin(ONTO, Root, cwd, arg, 0);
    }
  }

  lemma FromRoot(slash: string, arg: string)
    requires |slash| == 1 && slash[0] == '/'
    ensures WalkAll(Root, slash + arg) == WalkAll(Root, arg)
  {
    var p := slash + arg;
    FoldRooted(ONTO, Root, p);
    FoldSame(ONTO, Root, p, 1, |p|, arg, 0, |arg|);
  }

  // ---------- going down and up ----------

  // The path of a directory's entry.
  function Child(p: string, c: Comp): string {
    if p == "/" then p + c else p + "/" + c
  }

  // Walking one component without slashes.
  lemma WalkOne(stack: Stack, c: Comp)
    requires NoSlash(c)
    ensures WalkAll(stack, c) == stack.Onto(c)
  {
    assert c[0..|c|] == c;
    OnePart(c, 0, |c|);
  }

  // Walking to an entry of a directory.
  lemma WalkChild(p: string, c: Comp)
    requires IsNormal(p) && Proper(c)
    ensures IsNormal(Child(p, c)) && WalkAll(Root, Child(p, c)) == Sub(WalkAll(Root, p), c)
  {
    var stack := WalkAll(Root, p);
    WalkKeeps(Root, p, 0, |p|);
    NormalIsFixed(p);
    assert Sub(stack, c).Render() == Child(p, c);
    RenderIsNormal(Sub(stack, c));
    WalkRender(Sub(stack, c));
    FoldRooted(ONTO, Root, Child(p, c));
  }

  /** From any directory, an entry's name leads to its path, ".." from there leads back, and so do
      both in one argument; ".." at the root stays there. */
  lemma DownAndUp(p: string, c: Comp)
    requires IsNormal(p) && Proper(c)
    ensures Normal(Joined(p, c)) == Child(p, c)
    ensures Normal(Joined(Child(p, c), "..")) == p
    ensures Normal(Joined(p, c + "/" + "..")) == p
    ensures Normal(Joined("/", "..")) == "/"
  {
    var stack, back := WalkAll(Root, p), c + "/" + "..";
    NormalIsFixed(p);
    WalkChild(p, c);
    NormalIsFixed(Child(p, c));
    WalkOne(stack, c);
    WalkOne(Sub(stack, c), "..");
    RelativeStartsAtCwd(p, c);
    RelativeStartsAtCwd(Child(p, c), "..");
    FoldJoin(ONTO, stack, c, "..", 0);
    RelativeStartsAtCwd(p, back);
    RootUp();
  }

  lemma RootUp()
    ensures Normal(Joined("/", "..")) == "/"
  {
    assert IsNormal("/");
    RelativeStartsAtCwd("/", "..");
    FoldRooted(ONTO, Root, "/");
    assert |"/"[1..1]| == 0;
    WalkOne(Root, "..");
  }
}
