/**
 * Path strings of fs/namei.c: splitting at slashes, the canonical form, and
 * path_resolve, which folds "." and ".." away on a character stack.
 */
module Paths {
  import opened Basics

  const PATH_MAX := 256

  type Name = string

  /** Length of the part before the first slash. */
  function Span(s: string): (n: nat)
    ensures n <= |s| && '/' !in s[..n] && (n < |s| ==> s[n] == '/')
    ensures s != "" && s[0] != '/' ==> n > 0
  {
    if s == "" || s[0] == '/' then 0 else
      assert s[..1 + Span(s[1..])] == [s[0]] + s[1..][..Span(s[1..])];
      1 + Span(s[1..])
  }

  /** The components between the slashes. */
  function Split(s: string): seq<Name>
    decreases |s|
  {
    if s == "" then [] else if s[0] == '/' then Split(s[1..]) else [s[..Span(s)]] + Split(s[Span(s)..])
  }

  function Join(names: seq<Name>): string {
    if names == [] then "" else "/" + names[0] + Join(names[1..])
  }

  /** The canonical absolute path with these components. */
  function Show(names: seq<Name>): string {
    if names == [] then "/" else Join(names)
  }

  predicate Good(n: Name) {
    n != "" && '/' !in n
  }

  /** A name of a directory entry. */
  predicate Plain(n: Name) {
    Good(n) && n != "." && n != ".."
  }

  predicate AllGood(names: seq<Name>) {
    forall i :: 0 <= i < |names| ==> Good(names[i])
  }

  predicate AllPlain(names: seq<Name>) {
    forall i :: 0 <= i < |names| ==> Plain(names[i])
  }

  lemma {:induction false} SplitGood(s: string)
    ensures AllGood(Split(s))
    decreases |s|
  {
    if s != "" {
      if s[0] == '/' {
        SplitGood(s[1..]);
      } else {
        SplitGood(s[Span(s)..]);
      }
    }
  }

  lemma {:induction false} SpanOf(n: Name, rest: string)
    requires '/' !in n && (rest == "" || rest[0] == '/')
    ensures Span(n + rest) == |n|
  {
    if n == "" {
      assert n + rest == rest;
    } else {
      assert (n + rest)[1..] == n[1..] + rest;
      SpanOf(n[1..], rest);
    }
  }

  lemma SplitHead(n: Name, rest: string)
    requires Good(n) && (rest == "" || rest[0] == '/')
    ensures Split(n + rest) == [n] + Split(rest)
  {
    SpanOf(n, rest);
    assert (n + rest)[..|n|] == n && (n + rest)[|n|..] == rest;
  }

  /** Splitting undoes joining. */
  lemma {:induction false} SplitJoin(names: seq<Name>)
    requires AllGood(names)
    ensures Split(Join(names)) == names
  {
    if names != [] {
      var tail := names[0] + Join(names[1..]);
      assert Join(names) == "/" + tail && Join(names)[1..] == tail;
      SplitHead(names[0], Join(names[1..]));
      SplitJoin(names[1..]);
    }
  }

  lemma SplitShow(names: seq<Name>)
    requires AllGood(names)
    ensures Split(Show(names)) == names
  {
    SplitJoin(names);
    if names == [] {
      assert Show(names)[1..] == "";
    }
  }

  lemma {:induction false} JoinSnoc(names: seq<Name>, n: Name)
    ensures Join(names + [n]) == Join(names) + "/" + n
  {
    if names == [] {
      assert names + [n] == [n];
    } else {
      assert (names + [n])[1..] == names[1..] + [n];
      JoinSnoc(names[1..], n);
    }
  }

  // ---------- the lexical meaning ----------

  function Drop(names: seq<Name>): seq<Name> {
    if names == [] then [] else names[..|names| - 1]
  }

  /** Follow the components from a directory, purely by name. */
  function Fold(names: seq<Name>, comps: seq<Name>): seq<Name>
    decreases |comps|
  {
    if comps == [] then names
    else if comps[0] == "." then Fold(names, comps[1..])
    else if comps[0] == ".." then Fold(Drop(names), comps[1..])
    else Fold(names + [comps[0]], comps[1..])
  }

  /**
   * The same under the limit of the character stack; rooted says that the stack holds the
   * single slash of a base "/", which counts one character although it names nothing.
   */
  function Limited(names: seq<Name>, rooted: bool, comps: seq<Name>): Option<seq<Name>>
    decreases |comps|
  {
    if comps == [] then Some(names)
    else if |comps[0]| >= PATH_MAX then None
    else if comps[0] == "." then Limited(names, rooted, comps[1..])
    else if comps[0] == ".." then Limited(Drop(names), false, comps[1..])
    else if |Stack(names, rooted)| + 1 + |comps[0]| >= PATH_MAX then None
    else Limited(names + [comps[0]], false, comps[1..])
  }

  /** The characters on the stack. */
  function Stack(names: seq<Name>, rooted: bool): string {
    if rooted && names == [] then "/" else Join(names)
  }

  /** A path is resolved to its lexical fold or not at all, and the fold is canonical and fits. */
  lemma {:induction false} LimitedFold(names: seq<Name>, rooted: bool, comps: seq<Name>)
    requires AllPlain(names) && AllGood(comps) && |Join(names)| < PATH_MAX
    ensures Limited(names, rooted, comps).Some? ==> Limited(names, rooted, comps).value == Fold(names, comps)
    ensures Limited(names, rooted, comps).Some? ==>
              AllPlain(Fold(names, comps)) && |Join(Fold(names, comps))| < PATH_MAX
    decreases |comps|
  {
    if comps != [] && |comps[0]| < PATH_MAX {
      if comps[0] == "." {
        LimitedFold(names, rooted, comps[1..]);
      } else if comps[0] == ".." {
        if names != [] {
          JoinSnoc(Drop(names), names[|names| - 1]);
          assert names == Drop(names) + [names[|names| - 1]];
        }
        LimitedFold(Drop(names), false, comps[1..]);
      } else if |Stack(names, rooted)| + 1 + |comps[0]| < PATH_MAX {
        JoinSnoc(names, comps[0]);
        LimitedFold(names + [comps[0]], false, comps[1..]);
      }
    }
  }

  /** A canonical path resolves to itself. */
  lemma {:induction false} CanonicalStays(done: seq<Name>, names: seq<Name>)
    requires AllPlain(done + names) && |Join(done + names)| < PATH_MAX
    ensures Limited(done, false, names) == Some(done + names)
    decreases |names|
  {
    if names == [] {
      assert done + names == done;
    } else {
      var n := names[0];
      assert Plain(n) by { assert (done + names)[|done|] == n; }
      assert done + names == (done + [n]) + names[1..];
      JoinSnoc(done, n);
      JoinPrefix(done + [n], names[1..]);
      CanonicalStays(done + [n], names[1..]);
    }
  }

  lemma {:induction false} JoinPrefix(a: seq<Name>, b: seq<Name>)
    ensures Join(a + b) == Join(a) + Join(b)
  {
    if a == [] {
      assert a + b == b;
    } else {
      assert (a + b)[1..] == a[1..] + b;
      JoinPrefix(a[1..], b);
    }
  }

  // ---------- path_resolve ----------

  datatype Resolved = Path(path: string) | NotFound | Invalid | TooLong

  /** What path_resolve computes for a canonical base. */
  function ResolveSpec(base: seq<Name>, path: string): Resolved {
    if path == "" then NotFound else
      var r := if path[0] == '/' then Limited([], false, Split(path)) else Limited(base, true, Split(path));
      if r.None? then TooLong else Path(Show(r.value))
  }

  /** Where the last slash is; 0 when there is none. */
  function SlashAt(t: string): (k: nat)
    ensures if t == "" then k == 0 else k < |t| && (t[0] == '/' || k > 0 ==> t[k] == '/')
    ensures forall i | k < i < |t| :: t[i] != '/'
  {
    if t == "" || t[|t| - 1] == '/' then (if t == "" then 0 else |t| - 1) else SlashAt(t[..|t| - 1])
  }

  /** A name as it fits into a dentry or a buffer. */
  function Truncated(name: string): string {
    if |name| >= PATH_MAX then name[..PATH_MAX - 1] else name
  }

  /** The ".." branch of path_resolve: the stack is cut at its last slash. */
  function Popped(stack: string): string {
    stack[..SlashAt(stack)]
  }

  /** The branch for an ordinary component. */
  function Pushed(stack: string, comp: Name): string {
    (if stack == "" || stack[|stack| - 1] != '/' then stack + "/" else stack) + comp
  }

  /** The loop of path_resolve on whatever the stack holds. */
  function Stacked(stack: string, comps: seq<Name>): Option<string>
    decreases |comps|
  {
    if comps == [] then Some(stack)
    else if |comps[0]| >= PATH_MAX then None
    else if comps[0] == "." then Stacked(stack, comps[1..])
    else if comps[0] == ".." then Stacked(Popped(stack), comps[1..])
    else if |stack| + 1 + |comps[0]| >= PATH_MAX then None
    else Stacked(Pushed(stack, comps[0]), comps[1..])
  }

  /** path_resolve on any two strings. */
  function ResolveText(base: string, path: string): Resolved {
    if path == "" then NotFound
    else if path[0] != '/' && (base == "" || base[0] != '/') then Invalid
    else
      var r := Stacked(if path[0] == '/' then "" else Truncated(base), Split(path));
      if r.None? then TooLong else Path(if r.value == "" then "/" else r.value)
  }

  lemma {:induction false} LastSlash(names: seq<Name>, n: Name, k: nat)
    requires Good(n) && |Join(names)| < k <= |Join(names)| + 1 + |n|
    ensures |Join(names + [n])| == |Join(names)| + 1 + |n|
    ensures Join(names + [n])[k - 1] == '/' <==> k == |Join(names)| + 1
  {
    JoinSnoc(names, n);
    if k > |Join(names)| + 1 {
      assert Join(names + [n])[k - 1] == n[k - 2 - |Join(names)|];
    }
  }

  lemma SlashUnique(t: string, k: nat)
    requires k < |t| && t[k] == '/' && forall i | k < i < |t| :: t[i] != '/'
    ensures SlashAt(t) == k
  {
  }

  /** The last slash of a joined path is the one before its last name. */
  lemma SlashOfJoin(names: seq<Name>)
    requires AllGood(names) && names != []
    ensures SlashAt(Join(names)) == |Join(Drop(names))|
    ensures Join(names) == Join(Drop(names)) + "/" + names[|names| - 1] && Join(names)[|Join(names)| - 1] != '/'
  {
    var dir, n := Drop(names), names[|names| - 1];
    assert names == dir + [n];
    JoinSnoc(dir, n);
    forall i | |Join(dir)| < i < |Join(names)| ensures Join(names)[i] != '/' {
      LastSlash(dir, n, i + 1);
    }
    SlashUnique(Join(names), |Join(dir)|);
  }

  /** On the stack of a canonical base the character operations are those on names. */
  lemma StackSteps(names: seq<Name>, rooted: bool, comp: Name)
    requires AllGood(names)
    ensures Popped(Stack(names, rooted)) == Join(Drop(names))
    ensures Pushed(Stack(names, rooted), comp) == Join(names + [comp])
  {
    JoinSnoc(names, comp);
    if names != [] {
      SlashOfJoin(names);
    }
  }

  lemma {:induction false} StackedLimited(names: seq<Name>, rooted: bool, comps: seq<Name>)
    requires AllGood(names) && AllGood(comps)
    ensures Stacked(Stack(names, rooted), comps).None? <==> Limited(names, rooted, comps).None?
    ensures Limited(names, rooted, comps).Some? ==>
              && AllGood(Limited(names, rooted, comps).value)
              && var s := Stacked(Stack(names, rooted), comps).value;
              (if s == "" then "/" else s) == Show(Limited(names, rooted, comps).value)
    decreases |comps|
  {
    if comps == [] {
      ShowJoin(names);
    } else {
      StackSteps(names, rooted, comps[0]);
      if comps[0] == "." {
        StackedLimited(names, rooted, comps[1..]);
      } else if comps[0] == ".." {
        StackedLimited(Drop(names), false, comps[1..]);
      } else {
        StackedLimited(names + [comps[0]], false, comps[1..]);
      }
    }
  }

  lemma ShowJoin(names: seq<Name>)
    ensures Join(names) == "" <==> names == []
  {
  }

  /** From a canonical base path_resolve works on names. */
  lemma ResolveNames(from: seq<Name>, path: string)
    requires AllPlain(from) && |Show(from)| < PATH_MAX
    ensures ResolveText(Show(from), path) == ResolveSpec(from, path)
  {
    SplitGood(path);
    assert Stack(from, true) == Show(from) && Stack([], false) == "";
    StackedLimited(from, true, Split(path));
    StackedLimited([], false, Split(path));
  }

  /** Cutting the stack at its last slash. */
  method PopStack(stack: string) returns (r: string)
    ensures r == Popped(stack)
  {
    var sp := |stack|;
    while sp > 0 && stack[sp - 1] != '/'
      invariant 0 <= sp <= |stack| && forall i | sp <= i < |stack| :: stack[i] != '/'
    {
      sp := sp - 1;
    }
    if sp > 0 {
      sp := sp - 1;
    }
    r := stack[..sp];
  }

  /** The components from position p on. */
  lemma SplitNext(path: string, p: nat)
    requires p < |path|
    ensures path[p] == '/' ==> Split(path[p..]) == Split(path[p + 1..])
    ensures path[p] != '/' ==>
              var k := Span(path[p..]);
              k > 0 && p + k <= |path| && Split(path[p..]) == [path[p..][..k]] + Split(path[p + k..])
  {
    var s := path[p..];
    if path[p] == '/' {
      assert s[1..] == path[p + 1..];
    } else {
      assert s[Span(s)..] == path[p + Span(s)..];
    }
  }

  /** What the loop of path_resolve does with one component. */
  method StackComponent(stack: string, comp: Name, ghost rest: seq<Name>) returns (next: Option<string>)
    ensures Stacked(stack, [comp] + rest) == if next.None? then None else Stacked(next.value, rest)
  {
    assert ([comp] + rest)[1..] == rest;
    if |comp| >= PATH_MAX {
      return None;
    }
    if comp == "." {
      return Some(stack);
    }
    if comp == ".." {
      var up := PopStack(stack);
      return Some(up);
    }
    if |stack| + 1 + |comp| >= PATH_MAX {
      return None;
    }
    var top := stack;
    if top == "" || top[|top| - 1] != '/' {
      top := top + "/";
    }
    return Some(top + comp);
  }

  /** The loop of path_resolve. */
  method StackPath(start: string, path: string) returns (r: Option<string>)
    ensures r == Stacked(start, Split(path))
  {
    ghost var goal := Stacked(start, Split(path));
    var stack, p := start, 0;
    assert path[p..] == path;
    while p < |path|
      invariant 0 <= p <= |path| && goal == Stacked(stack, Split(path[p..]))
      decreases |path| - p
    {
      SplitNext(path, p);
      if path[p] == '/' {
        p := p + 1;
        continue;
      }
      var clen := Span(path[p..]);
      var next := StackComponent(stack, path[p..][..clen], Split(path[p + clen..]));
      if next.None? {
        return None;
      }
      p, stack := p + clen, next.value;
    }
    assert path[p..] == "";
    return Some(stack);
  }

  /** path_resolve. */
  method PathResolve(base: string, path: string) returns (r: Resolved)
    ensures r == ResolveText(base, path)
  {
    if path == "" {
      return NotFound;
    }
    var stack := "";
    if path[0] != '/' {
      if base == "" || base[0] != '/' {
        return Invalid;
      }
      stack := Truncated(base);
    }
    var res := StackPath(stack, path);
    if res.None? {
      return TooLong;
    }
    return Path(if res.value == "" then "/" else res.value);
  }

  /** Whatever path_resolve returns is the canonical path of the lexical fold, fits, and resolves to itself. */
  lemma ResolveCanonical(base: seq<Name>, path: string, other: seq<Name>)
    requires AllPlain(base) && |Show(base)| < PATH_MAX && ResolveSpec(base, path).Path?
    ensures var names := Fold(if path[0] == '/' then [] else base, Split(path));
      AllPlain(names) && ResolveSpec(base, path) == Path(Show(names)) && |Show(names)| < PATH_MAX
      && ResolveSpec(other, Show(names)) == Path(Show(names))
  {
    SplitGood(path);
    var start := if path[0] == '/' then [] else base;
    LimitedFold(start, path[0] != '/', Split(path));
    var names := Fold(start, Split(path));
    SplitShow(names);
    assert [] + names == names;
    CanonicalStays([], names);
  }

  // ---------- when the limit bites ----------

  /** Every directory on the way has a path that fits. */
  ghost predicate AllFit(names: seq<Name>, comps: seq<Name>) {
    forall k | 0 <= k <= |comps| :: |Join(Fold(names, comps[..k]))| < PATH_MAX
  }

  /** One component further on. */
  function Enter(names: seq<Name>, c: Name): seq<Name> {
    if c == "." then names else if c == ".." then Drop(names) else names + [c]
  }

  lemma AllFitStep(names: seq<Name>, comps: seq<Name>)
    requires comps != []
    ensures AllFit(names, comps) <==> |Join(names)| < PATH_MAX && AllFit(Enter(names, comps[0]), comps[1..])
  {
    var next, rest := Enter(names, comps[0]), comps[1..];
    forall k | 0 <= k <= |rest| ensures Fold(names, comps[..k + 1]) == Fold(next, rest[..k]) {
      assert comps[..k + 1][1..] == rest[..k];
    }
    assert comps[..0] == [];
    if AllFit(names, comps) {
      forall k | 0 <= k <= |rest| ensures |Join(Fold(next, rest[..k]))| < PATH_MAX {
        assert Fold(names, comps[..k + 1]) == Fold(next, rest[..k]);
      }
      assert Fold(names, comps[..0]) == names;
    }
    if |Join(names)| < PATH_MAX && AllFit(next, rest) {
      forall k | 0 <= k <= |comps| ensures |Join(Fold(names, comps[..k]))| < PATH_MAX {
        if k > 0 {
          assert Fold(names, comps[..k - 1 + 1]) == Fold(next, rest[..k - 1]);
        }
      }
    }
  }

  /** The character stack gives up exactly when some directory on the way has a path too long for it. */
  lemma {:induction false} LimitedIff(names: seq<Name>, comps: seq<Name>)
    requires AllPlain(names) && AllGood(comps) && |Join(names)| < PATH_MAX
    ensures Limited(names, false, comps) == if AllFit(names, comps) then Some(Fold(names, comps)) else None
    decreases |comps|
  {
    if comps == [] {
      assert comps[..0] == comps;
    } else {
      AllFitStep(names, comps);
      var next := Enter(names, comps[0]);
      if comps[0] == ".." && names != [] {
        JoinSnoc(Drop(names), names[|names| - 1]);
        assert names == Drop(names) + [names[|names| - 1]];
      }
      JoinSnoc(names, comps[0]);
      if |Join(next)| < PATH_MAX {
        LimitedIff(next, comps[1..]);
      } else {
        assert comps[1..][..0] == [];
        assert Fold(next, comps[1..][..0]) == next;
      }
    }
  }

  /** The components after any leading ".". */
  function Skip(comps: seq<Name>): (r: seq<Name>)
    ensures r != [] ==> r[0] != "."
  {
    if comps != [] && comps[0] == "." then Skip(comps[1..]) else comps
  }

  lemma {:induction false} SkipSame(names: seq<Name>, rooted: bool, comps: seq<Name>)
    requires AllGood(comps)
    ensures Limited(names, rooted, comps) == Limited(names, rooted, Skip(comps)) && AllGood(Skip(comps))
  {
    if comps != [] && comps[0] == "." {
      SkipSame(names, rooted, comps[1..]);
    }
  }

  /**
   * The path first enters a name of 254 characters, which fills the stack but for the slash of the
   * base "/", and then stays there or leaves it again by ".." for something that fits.
   */
  ghost predicate Squeezed(comps: seq<Name>) {
    var c := Skip(comps);
    && c != [] && c[0] != ".." && |c[0]| == PATH_MAX - 2
    && var d := Skip(c[1..]);
    d == [] || (d[0] == ".." && AllFit([], d[1..]))
  }

  /** The slash of the base counts only when the base is the root. */
  lemma {:induction false} RootedOnlyAtRoot(names: seq<Name>, comps: seq<Name>)
    requires names != []
    ensures Limited(names, true, comps) == Limited(names, false, comps)
    decreases |comps|
  {
    if comps != [] && comps[0] == "." {
      RootedOnlyAtRoot(names, comps[1..]);
    }
  }

  lemma RootedIff(comps: seq<Name>)
    requires AllGood(comps)
    ensures Limited([], true, comps) == if Squeezed(comps) then None else Limited([], false, comps)
    ensures Squeezed(comps) ==> Limited([], false, comps).Some?
  {
    var none: seq<Name> := [];
    SkipSame(none, true, comps);
    SkipSame(none, false, comps);
    var c := Skip(comps);
    if c != [] && c[0] != ".." {
      assert |Stack(none, true)| == 1 && |Stack(none, false)| == 0 && none + [c[0]] == [c[0]];
      if |c[0]| == PATH_MAX - 2 {
        FullStack(c[0], c[1..]);
      }
    }
  }

  /** From a directory whose path fills the stack only ".." leads on. */
  lemma FullStack(n: Name, rest: seq<Name>)
    requires Good(n) && |n| == PATH_MAX - 2 && AllGood(rest)
    ensures var d := Skip(rest);
            Limited([n], false, rest).Some? <==> d == [] || (d[0] == ".." && AllFit([], d[1..]))
  {
    var d := Skip(rest);
    SkipSame([n], false, rest);
    assert Join([n]) == "/" + n + Join([n][1..]);
    if d != [] && d[0] == ".." {
      assert Drop([n]) == [];
      LimitedIff([], d[1..]);
    }
  }

  /** In the root directory a relative path means what it means with a slash in front, except when it is squeezed. */
  lemma RelativeFromRoot(path: string)
    requires path != "" && path[0] != '/'
    ensures ResolveSpec([], path) == ResolveSpec([], "/" + path) <==> !Squeezed(Split(path))
    ensures Squeezed(Split(path)) ==> ResolveSpec([], path) == TooLong && ResolveSpec([], "/" + path).Path?
  {
    assert ("/" + path)[1..] == path;
    SplitGood(path);
    RootedIff(Split(path));
  }

  /** So a name of the greatest length is found in the root directory by its absolute path only. */
  lemma LongestName(n: Name)
    requires Plain(n) && |n| == PATH_MAX - 2
    ensures ResolveSpec([], "/" + n) == Path("/" + n) && ResolveSpec([], n) == TooLong
  {
    SplitHead(n, "");
    assert n + "" == n && Split("") == [];
    var comps := [n];
    assert Split(n) == comps && Skip(comps[1..]) == [];
    assert ("/" + n)[1..] == n;
    RelativeFromRoot(n);
    LimitedFold([], false, comps);
    assert [] + comps == comps && Show(comps) == "/" + n;
  }

  /** The path without trailing slashes, except one that is all there is. */
  function TrimmedPath(path: string): (t: string)
    ensures t <= path && (|t| > 1 ==> t[|t| - 1] != '/')
    ensures path != "" ==> t != ""
  {
    if |path| > 1 && path[|path| - 1] == '/' then TrimmedPath(path[..|path| - 1]) else path
  }

  /** path_parent_name on any string: the directory part and the last component. */
  function ParentOf(path: string): Option<(string, Name)> {
    var t := TrimmedPath(path);
    var slash := SlashAt(t);
    if path == "" || path[0] != '/' || |t| <= 1 || slash >= PATH_MAX then None
    else Some((if slash == 0 then "/" else t[..slash], Truncated(t[slash + 1..])))
  }

  lemma ParentAt(dir: string, n: Name)
    requires Good(n) && |dir| + 1 + |n| < PATH_MAX && (dir == "" || dir[0] == '/')
    ensures ParentOf(dir + "/" + n) == Some((if dir == "" then "/" else dir, n))
  {
    var t := dir + "/" + n;
    assert t[|t| - 1] == n[|n| - 1] && TrimmedPath(t) == t;
    SlashUnique(t, |dir|);
    assert t[|dir| + 1..] == n && t[..|dir|] == dir && t[0] == '/';
  }

  /** On a canonical path it splits off the last name. */
  lemma ParentNames(names: seq<Name>)
    requires AllPlain(names) && |Show(names)| < PATH_MAX
    ensures ParentOf(Show(names)) == if names == [] then None else Some((Show(Drop(names)), names[|names| - 1]))
  {
    if names != [] {
      SlashOfJoin(names);
      ShowJoin(Drop(names));
      ParentAt(Join(Drop(names)), names[|names| - 1]);
    }
  }

  /** path_parent_name. */
  method ParentName(path: string) returns (r: Option<(string, Name)>)
    ensures r == ParentOf(path)
  {
    if path == "" || path[0] != '/' {
      return None;
    }
    var len := |path|;
    assert path[..len] == path;
    while len > 1 && path[len - 1] == '/'
      invariant 1 <= len <= |path| && TrimmedPath(path[..len]) == TrimmedPath(path)
    {
      assert path[..len][..len - 1] == path[..len - 1];
      len := len - 1;
    }
    if len <= 1 {
      return None;
    }
    var slash := 0;
    for i := 0 to len
      invariant slash < len && path[slash] == '/' && forall j | slash < j < i :: path[j] != '/'
    {
      if path[i] == '/' {
        slash := i;
      }
    }
    assert TrimmedPath(path) == path[..len];
    SlashUnique(path[..len], slash);
    assert path[..len][..slash] == path[..slash] && path[..len][slash + 1..] == path[slash + 1..len];
    if slash >= PATH_MAX {
      return None;
    }
    return Some((if slash == 0 then "/" else path[..slash], Truncated(path[slash + 1..len])));
  }
}
