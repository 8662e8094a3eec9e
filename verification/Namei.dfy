/**
 * fs/namei.c over ramfs and the dentry cache: path lookup, mkdir, mknod,
 * link, symlink, unlink, rmdir, rename and chdir. Allocation succeeds.
 */
module Namei {
  import opened Basics
  import opened Paths
  import opened Ramfs
  import opened Dcache

  const MAX_LINKS: nat := 8

  datatype Errno =
    | Ok | ENOENT | EEXIST | ENOTDIR | EISDIR | ENOTEMPTY | EPERM | EINVAL
    | ENAMETOOLONG | EBADF | ENFILE

  // ---------- walking ----------

  /** ramfs_lookup_at. */
  function Walk(ram: Ram, x: Ino, comps: seq<Name>): Option<Ino>
    decreases |comps|
  {
    if comps == [] then Some(x)
    else if comps[0] == "." then Walk(ram, x, comps[1..])
    else if comps[0] == ".." then Walk(ram, if x != ROOT && x in ram then ram[x].parent else x, comps[1..])
    else
      var y := Look(ram, x, comps[0]);
      if y.None? || |comps| == 1 then y
      else if !IsDir(ram, y.value) then None
      else Walk(ram, y.value, comps[1..])
  }

  /** Following names only. */
  function Follow(at: Names, x: Ino, comps: seq<Name>): Option<Ino>
    decreases |comps|
  {
    if comps == [] then Some(x)
    else if Key(x, comps[0]) !in at then None
    else Follow(at, at[Key(x, comps[0])], comps[1..])
  }

  /** On a canonical path ramfs_lookup follows the names. */
  lemma {:induction false} WalkFollows(ram: Ram, at: Names, x: Ino, comps: seq<Name>)
    requires ListsOk(ram, at) && AllPlain(comps)
    ensures Walk(ram, x, comps) == Follow(at, x, comps)
    decreases |comps|
  {
    if comps != [] {
      LookIsGet(ram, at, x, comps[0]);
      var y := Look(ram, x, comps[0]);
      if y.Some? {
        var rest := comps[1..];
        if |comps| > 1 && !IsDir(ram, y.value) {
          assert Key(y.value, rest[0]) !in at;
        } else if |comps| > 1 {
          WalkFollows(ram, at, y.value, rest);
        }
      }
    }
  }

  lemma {:induction false} FollowSnoc(at: Names, x: Ino, comps: seq<Name>, n: Name)
    ensures Follow(at, x, comps + [n]) ==
            if Follow(at, x, comps).Some? then Get(at, Key(Follow(at, x, comps).value, n)) else None
    decreases |comps|
  {
    if comps == [] {
      assert comps + [n] == [n];
    } else if Key(x, comps[0]) in at {
      assert (comps + [n])[1..] == comps[1..] + [n];
      FollowSnoc(at, at[Key(x, comps[0])], comps[1..], n);
    }
  }

  // ---------- symbolic links ----------

  /** ramfs_lookup. */
  function RamFind(ram: Ram, path: string): Option<Ino> {
    if path == "" || path[0] != '/' then None else Walk(ram, ROOT, Split(path))
  }

  /** Where vfs_lookup goes on after a link: its target, from the directory the link is in. */
  function Redirect(path: string, target: string): Option<string> {
    var text := Truncated(target);
    if text != "" && text[0] == '/' then Some(text)
    else
      var p := ParentOf(path);
      if p.None? then None
      else
        var r := ResolveText(p.value.0, text);
        if r.Path? then Some(r.path) else None
  }

  /** At most depth lookups, each but the last ending in a link. */
  function Chase(ram: Ram, path: string, depth: nat): Option<Ino>
    decreases depth
  {
    if depth == 0 then None
    else
      var x := RamFind(ram, path);
      if x.None? || x.value !in ram || !ram[x.value].kind.Lnk? then x
      else
        var next := Redirect(path, ram[x.value].kind.target);
        if next.None? then None else Chase(ram, next.value, depth - 1)
  }

  /** Lookups stay among the inodes: every directory on the way has a parent that is there. */
  lemma {:induction false} WalkStays(ram: Ram, at: Names, rank: Ranks, x: Ino, comps: seq<Name>)
    requires ListsOk(ram, at) && TreeOk(ram, at, rank, {}) && Attached(ram, at, x)
    ensures Walk(ram, x, comps).Some? ==> Walk(ram, x, comps).value in ram
    decreases |comps|
  {
    if comps == [] {
    } else if comps[0] == "." {
      WalkStays(ram, at, rank, x, comps[1..]);
    } else if comps[0] == ".." {
      if x != ROOT {
        var k :| k in NamesOf(at, x);
        assert KeyOk(ram, at, rank, k);
      }
      WalkStays(ram, at, rank, if x != ROOT then ram[x].parent else x, comps[1..]);
    } else {
      LookIsGet(ram, at, x, comps[0]);
      var k := Key(x, comps[0]);
      if k in at {
        assert KeyOk(ram, at, rank, k) && k in NamesOf(at, at[k]);
        if |comps| > 1 && IsDir(ram, at[k]) {
          WalkStays(ram, at, rank, at[k], comps[1..]);
        }
      }
    }
  }

  /** What a chase ends at is there and is not a link. */
  lemma {:induction false} ChaseEnds(ram: Ram, at: Names, rank: Ranks, path: string, depth: nat)
    requires ListsOk(ram, at) && TreeOk(ram, at, rank, {})
    ensures var r := Chase(ram, path, depth); r.Some? ==> r.value in ram && !ram[r.value].kind.Lnk?
    decreases depth
  {
    if depth > 0 {
      var x := RamFind(ram, path);
      WalkStays(ram, at, rank, ROOT, Split(path));
      if x.Some? && ram[x.value].kind.Lnk? {
        var next := Redirect(path, ram[x.value].kind.target);
        if next.Some? {
          ChaseEnds(ram, at, rank, next.value, depth - 1);
        }
      }
    }
  }

  /** On a canonical path that names no link a lookup follows the names. */
  lemma ChaseFollows(ram: Ram, at: Names, rank: Ranks, path: string, names: seq<Name>, depth: nat)
    requires ListsOk(ram, at) && TreeOk(ram, at, rank, {}) && IsPath(path, names) && depth > 0
    ensures var x := Follow(at, ROOT, names);
            && (x.None? ==> Chase(ram, path, depth) == None)
            && (x.Some? ==> x.value in ram && (!ram[x.value].kind.Lnk? ==> Chase(ram, path, depth) == x))
  {
    PathSplits(path, names);
    WalkFollows(ram, at, ROOT, names);
    FollowStays(ram, at, rank, ROOT, names);
  }

  /** Reference counts do not matter to a lookup. */
  lemma {:induction false} WalkCounts(ram: Ram, y: Ino, c: nat, x: Ino, comps: seq<Name>)
    requires y in ram
    ensures Walk(Counted(ram, y, c), x, comps) == Walk(ram, x, comps)
    decreases |comps|
  {
    var r := Counted(ram, y, c);
    if comps != [] {
      if comps[0] == "." {
        WalkCounts(ram, y, c, x, comps[1..]);
      } else if comps[0] == ".." {
        WalkCounts(ram, y, c, if x != ROOT && x in ram then ram[x].parent else x, comps[1..]);
      } else {
        var z := Look(ram, x, comps[0]);
        assert Look(r, x, comps[0]) == z;
        if z.Some? {
          WalkCounts(ram, y, c, z.value, comps[1..]);
        }
      }
    }
  }

  lemma FindCounts(ram: Ram, y: Ino, c: nat, path: string)
    requires y in ram
    ensures RamFind(Counted(ram, y, c), path) == RamFind(ram, path)
  {
    WalkCounts(ram, y, c, ROOT, Split(path));
  }

  lemma {:induction false} ChaseCounts(ram: Ram, y: Ino, c: nat, path: string, depth: nat)
    requires y in ram
    ensures Chase(Counted(ram, y, c), path, depth) == Chase(ram, path, depth)
    decreases depth
  {
    if depth > 0 {
      var r := Counted(ram, y, c);
      var x := RamFind(ram, path);
      FindCounts(ram, y, c, path);
      if x.Some? && x.value in ram && ram[x.value].kind.Lnk? {
        assert r[x.value].kind == ram[x.value].kind;
        var next := Redirect(path, ram[x.value].kind.target);
        if next.Some? {
          ChaseCounts(ram, y, c, next.value, depth - 1);
        }
      }
    }
  }

  /** The dentry at the end of a path. */
  ghost predicate Leads(ds: Dents, names: seq<Name>, d: Id)
    decreases |names|
  {
    if names == [] then d == TOP
    else d in ds && d != TOP && ds[d].name == names[|names| - 1] && Leads(ds, names[..|names| - 1], ds[d].parent)
  }

  lemma {:induction false} LeadsOnce(ds: Dents, at: Names, names: seq<Name>, d: Id, e: Id)
    requires DcOk(ds, at) && Leads(ds, names, d) && Leads(ds, names, e)
    ensures d == e
    decreases |names|
  {
    if names != [] {
      LeadsOnce(ds, at, names[..|names| - 1], ds[d].parent, ds[e].parent);
      assert Apart(ds, d, e);
    }
  }

  /** The dentry at the end of a path stands for what the path names. */
  lemma {:induction false} LeadsFollows(ds: Dents, at: Names, names: seq<Name>, d: Id)
    requires DcOk(ds, at) && Leads(ds, names, d)
    ensures d in ds && Follow(at, ROOT, names) == Some(ds[d].ino)
    decreases |names|
  {
    if names != [] {
      var n := |names| - 1;
      LeadsFollows(ds, at, names[..n], ds[d].parent);
      assert names == names[..n] + [names[n]];
      FollowSnoc(at, ROOT, names[..n], names[n]);
      assert DentOk(ds, at, d);
    }
  }

  /** Dentries keep name, inode and parent. */
  ghost predicate Extends(ds: Dents, more: Dents) {
    forall k :: k in ds ==>
      k in more && more[k].name == ds[k].name && more[k].ino == ds[k].ino && more[k].parent == ds[k].parent
  }

  lemma {:induction false} LeadsExtends(ds: Dents, more: Dents, names: seq<Name>, d: Id)
    requires Leads(ds, names, d) && Extends(ds, more)
    ensures Leads(more, names, d)
    decreases |names|
  {
    if names != [] {
      LeadsExtends(ds, more, names[..|names| - 1], ds[d].parent);
    }
  }

  lemma LeadsSnoc(ds: Dents, names: seq<Name>, d: Id, n: Name)
    requires d in ds && d != TOP && ds[d].name == n && Leads(ds, names, ds[d].parent)
    ensures Leads(ds, names + [n], d)
  {
    assert (names + [n])[..|names|] == names;
  }

  lemma {:induction false} FollowStops(at: Names, x: Ino, a: seq<Name>, b: seq<Name>)
    requires Follow(at, x, a) == None
    ensures Follow(at, x, a + b) == None
    decreases |a|
  {
    assert (a + b)[0] == a[0];
    if Key(x, a[0]) in at {
      assert (a + b)[1..] == a[1..] + b;
      FollowStops(at, at[Key(x, a[0])], a[1..], b);
    }
  }

  /** What d_lookup_path finds when nothing new can be attached. */
  function CacheWalk(ds: Dents, d: Id, comps: seq<Name>): Option<Id>
    decreases |comps|
  {
    if comps == [] then Some(d)
    else if d !in ds then None
    else
      var c := FindKid(ds, ds[d].kids, comps[0]);
      if c.None? then None else CacheWalk(ds, c.value, comps[1..])
  }

  lemma {:induction false} CacheWalkSnoc(ds: Dents, d: Id, comps: seq<Name>, n: Name)
    ensures CacheWalk(ds, d, comps + [n]) ==
            if CacheWalk(ds, d, comps).Some? then CacheWalk(ds, CacheWalk(ds, d, comps).value, [n]) else None
    decreases |comps|
  {
    if comps == [] {
      assert comps + [n] == [n];
    } else if d in ds {
      var c := FindKid(ds, ds[d].kids, comps[0]);
      assert (comps + [n])[1..] == comps[1..] + [n];
      if c.Some? {
        CacheWalkSnoc(ds, c.value, comps[1..], n);
      }
    }
  }

  lemma {:induction false} CacheWalkLeads(ds: Dents, at: Names, names: seq<Name>, d: Id)
    requires DcOk(ds, at) && Leads(ds, names, d)
    ensures CacheWalk(ds, TOP, names) == Some(d)
    decreases |names|
  {
    if names != [] {
      var n := |names| - 1;
      CacheWalkLeads(ds, at, names[..n], ds[d].parent);
      assert names == names[..n] + [names[n]];
      CacheWalkSnoc(ds, TOP, names[..n], names[n]);
      assert DentOk(ds, at, d);
      FindKidSpec(ds, at, ds[d].parent, names[n], d);
      assert CacheWalk(ds, d, []) == Some(d);
    }
  }

  /** What becomes of the cache when an entry goes: its dentry, if there is one, has to go as well. */
  lemma ForgetOk(ds: Dents, ram: Ram, at: Names, rank: Ranks, p: Id, n: Name)
    requires DcOk(ds, at) && TreeOk(ram, at, rank, {}) && p in ds && Key(ds[p].ino, n) in at
    requires EmptyDir(at, at[Key(ds[p].ino, n)])
    ensures FindKid(ds, ds[p].kids, n) == None ==> DcOk(ds, at - {Key(ds[p].ino, n)})
    ensures FindKid(ds, ds[p].kids, n).Some? ==> Droppable(ds, p, FindKid(ds, ds[p].kids, n).value)
    ensures FindKid(ds, ds[p].kids, n).Some? ==>
              DcOk(Dcache.Drop(ds, FindKid(ds, ds[p].kids, n).value), at - {Key(ds[p].ino, n)})
  {
    var k, c := Key(ds[p].ino, n), FindKid(ds, ds[p].kids, n);
    FindKidIn(ds, ds[p].kids, n);
    if c.None? {
      OnlyChild(ds, ram, at, rank, p, n);
      NamesShrink(ds, at, k);
    } else {
      var d := c.value;
      FindKidSpec(ds, at, p, n, d);
      assert DentOk(ds, at, d);
      NoKids(ds, at, d);
      DropOk(ds, at, d);
      OnlyChild(ds, ram, at, rank, p, n);
      NamesShrink(Dcache.Drop(ds, d), at, k);
    }
  }

  ghost predicate Droppable(ds: Dents, p: Id, d: Id) {
    d in ds && d != TOP && ds[d].parent == p && p in ds && ds[d].kids == [] && p != d
  }

  lemma OnlyChild(ds: Dents, ram: Ram, at: Names, rank: Ranks, p: Id, n: Name)
    requires DcOk(ds, at) && TreeOk(ram, at, rank, {}) && p in ds && Key(ds[p].ino, n) in at
    ensures forall j :: j in ds && j != TOP && ds[j].parent in ds && DentKey(ds, j) == Key(ds[p].ino, n) ==>
              FindKid(ds, ds[p].kids, n) == Some(j)
  {
    assert KeyOk(ram, at, rank, Key(ds[p].ino, n));
    forall j | j in ds && j != TOP && ds[j].parent in ds && DentKey(ds, j) == Key(ds[p].ino, n)
      ensures FindKid(ds, ds[p].kids, n) == Some(j)
    {
      OneDentry(ds, ram, at, rank, {}, ds[j].parent, p);
      FindKidSpec(ds, at, p, n, j);
    }
  }

  ghost predicate PlainNames(ds: Dents) {
    forall d {:trigger NamedPlainly(ds, d)} :: d in ds ==> NamedPlainly(ds, d)
  }

  ghost predicate NamedPlainly(ds: Dents, d: Id)
    requires d in ds
  {
    d != TOP ==> Plain(ds[d].name)
  }

  /** Every task's current directory is a dentry that has not been freed. */
  ghost predicate AllIn(cwd: map<nat, Id>, ds: Dents) {
    forall t {:trigger CwdIn(cwd, ds, t)} :: t in cwd ==> CwdIn(cwd, ds, t)
  }

  ghost predicate CwdIn(cwd: map<nat, Id>, ds: Dents, t: nat)
    requires t in cwd
  {
    cwd[t] in ds
  }

  lemma AttachKeeps(ds: Dents, d: Id, n: Name, x: Ino, id: Id, cwd: map<nat, Id>)
    requires PlainNames(ds) && AllIn(cwd, ds) && d in ds && id !in ds && Plain(n)
    ensures PlainNames(Attach(ds, d, n, x, id)) && AllIn(cwd, Attach(ds, d, n, x, id))
  {
    var more := Attach(ds, d, n, x, id);
    forall e | e in more ensures NamedPlainly(more, e) {
      if e != id {
        assert NamedPlainly(ds, e);
      }
    }
    forall t | t in cwd ensures CwdIn(cwd, more, t) {
      assert CwdIn(cwd, ds, t);
    }
  }

  lemma DropKeeps(ds: Dents, d: Id, cwd: map<nat, Id>, fixed: map<nat, Id>)
    requires PlainNames(ds) && AllIn(cwd, ds) && d in ds && ds[d].parent in ds && ds[d].parent != d
    requires fixed.Keys == cwd.Keys
    requires forall t :: t in fixed ==> fixed[t] == if cwd[t] == d then ds[d].parent else cwd[t]
    ensures PlainNames(Dcache.Drop(ds, d)) && AllIn(fixed, Dcache.Drop(ds, d))
  {
    var less := Dcache.Drop(ds, d);
    forall e | e in less ensures NamedPlainly(less, e) {
      assert NamedPlainly(ds, e);
    }
    forall t | t in fixed ensures CwdIn(fixed, less, t) {
      assert CwdIn(cwd, ds, t);
    }
  }

  lemma MoveKeeps(ds: Dents, d: Id, p: Id, n: Name, cwd: map<nat, Id>)
    requires PlainNames(ds) && AllIn(cwd, ds) && d in ds && ds[d].parent in ds && p in ds && Plain(n)
    ensures PlainNames(MoveDent(ds, d, p, n)) && AllIn(cwd, MoveDent(ds, d, p, n))
  {
    var m := MoveDent(ds, d, p, n);
    forall e | e in m ensures NamedPlainly(m, e) {
      assert NamedPlainly(ds, e);
    }
    forall t | t in cwd ensures CwdIn(cwd, m, t) {
      assert CwdIn(cwd, ds, t);
    }
  }

  ghost function Users(ram: Ram, y: Ino): nat {
    if y in ram then ram[y].count else 0
  }

  /** No reference is taken or lost; so an inode that has one is still there. */
  ghost predicate SameCounts(was: Ram, ram: Ram) {
    forall y {:trigger Users(ram, y)} {:trigger Users(was, y)} :: Users(ram, y) == Users(was, y)
  }

  /** What iput does: one user less, and perhaps the inode is gone. */
  ghost predicate PutOnce(was: Ram, ram: Ram, x: Ino) {
    && x in was && was[x].count > 0
    && (x in ram <==> was[x].nlink > 0 || was[x].count > 1)
    && (x in ram ==> ram[x] == was[x].(count := was[x].count - 1))
    && (forall y {:trigger y in ram} {:trigger y in was} :: y != x ==>
          (y in ram <==> y in was) && (y in ram ==> ram[y] == was[y]))
  }

  /** One more reference to x, and no other count changed. */
  ghost predicate TookOne(was: Ram, ram: Ram, x: Ino) {
    x in was && forall y {:trigger Users(ram, y)} {:trigger Users(was, y)} ::
                  Users(ram, y) == Users(was, y) + if y == x then 1 else 0
  }

  lemma TakenStays(was: Ram, mid: Ram, out: Ram, x: Ino)
    requires x in was && mid == Counted(was, x, was[x].count + 1) && SameCounts(mid, out)
    ensures TookOne(was, out, x)
  {
    forall y ensures Users(out, y) == Users(was, y) + if y == x then 1 else 0 {
      assert Users(out, y) == Users(mid, y);
    }
  }

  /** What unlink does to the counts: on success the inode the path leads to keeps one reference for good. */
  ghost predicate UnlinkCounts(was: Ram, before: multiset<Ino>, path: string, err: Errno, ram: Ram,
                               stray: multiset<Ino>) {
    var x := Chase(was, path, MAX_LINKS);
    if err == Ok then x.Some? && TookOne(was, ram, x.value) && stray == before + multiset{x.value}
    else SameCounts(was, ram) && stray == before
  }

  /** A reference taken and put again leaves the counts as they were. */
  lemma TakenAndPut(was: Ram, mid: Ram, out: Ram, x: Ino)
    requires x in was && SameCounts(Counted(was, x, was[x].count + 1), mid) && PutOnce(mid, out, x)
    ensures SameCounts(was, out)
  {
    forall y ensures Users(out, y) == Users(was, y) {
      assert Users(mid, y) == Users(Counted(was, x, was[x].count + 1), y);
    }
  }

  /** Neither a new name nor a moved one changes a count. */
  lemma CreatedCounts(ram: Ram, d: Ino, n: Name, x: Ino, k: Kind)
    requires d in ram && x !in ram
    ensures SameCounts(ram, Created(ram, d, n, x, k)) && SameKinds(ram, Created(ram, d, n, x, k))
  {
  }

  lemma NewInodeOk(ram: Ram, at: Names, rank: Ranks, dents: Dents, d: Ino, n: Name, x: Ino, k: Kind)
    requires ListsOk(ram, at) && TreeOk(ram, at, rank, {}) && DcOk(dents, at)
    requires Attached(ram, at, d) && x !in ram && Key(d, n) !in at
    ensures ListsOk(Created(ram, d, n, x, k), at[Key(d, n) := x])
    ensures TreeOk(Created(ram, d, n, x, k), at[Key(d, n) := x], rank[x := rank[d] + 1], {})
    ensures DcOk(dents, at[Key(d, n) := x])
    ensures SameCounts(ram, Created(ram, d, n, x, k)) && SameKinds(ram, Created(ram, d, n, x, k))
  {
    CreatedLists(ram, at, d, n, x, k);
    CreatedTree(ram, at, rank, d, n, x, k);
    CreatedCounts(ram, d, n, x, k);
    NamesGrow(dents, at, at[Key(d, n) := x]);
  }

  lemma MovedCounts(ram: Ram, k: Key, l: Key, x: Ino)
    requires k.dir in ram && l.dir in ram && x in ram
    ensures SameCounts(ram, Moved(ram, k, l, x))
  {
  }

  lemma LinkedCounts(ram: Ram, d: Ino, n: Name, x: Ino)
    requires d in ram && x in ram
    ensures SameCounts(ram, LinkedTo(ram, d, n, x))
  {
  }

  lemma PutBack(was: Ram, ram: Ram, x: Ino)
    requires x in was && Kept(was, x) && PutOnce(Counted(was, x, was[x].count + 1), ram, x)
    ensures ram == was
  {
    assert ram.Keys == was.Keys;
  }

  lemma SameAtOnce(ram: Ram)
    ensures SameCounts(ram, ram)
  {
  }

  /** What removing a name leaves alone. */
  lemma RemovedFrame(ram: Ram, d: Ino, n: Name, x: Ino)
    requires d in ram && x in ram && d != x
    ensures SameCounts(ram, Evicted(Unlinked(ram, d, n, x), x))
    ensures var r := Evicted(Unlinked(ram, d, n, x), x);
      forall y :: y in ram && y != x ==> y in r && r[y].kind == ram[y].kind && r[y].parent == ram[y].parent
  {
  }

  class FileSystem {
    var ram: Ram
    var dents: Dents
    var cwd: map<nat, Id>               // current directory of each task
    var files: seq<Ino>                 // the inode of every open struct file
    ghost var stray: multiset<Ino>      // references that were taken and are never put
    ghost var at: Names                 // what the directory lists of ram spell out
    ghost var rank: Ranks

    ghost predicate Valid()
      reads this
    {
      && ListsOk(ram, at) && TreeOk(ram, at, rank, {})
      && DcOk(dents, at) && PlainNames(dents) && AllIn(cwd, dents)
    }

    ghost function Snapshot(): Snap
      reads this
    {
      Snap(ram, at, rank, dents, cwd, files, stray)
    }

    /** ramfs with nothing but its root, dcache_init, and tasks in the root directory. */
    constructor (tasks: set<nat>)
      ensures Valid() && Accounted(ram, files, stray) && at == map[] && cwd.Keys == tasks
      ensures files == [] && stray == multiset{}
    {
      ram := map[ROOT := Node(Dir, [], ROOT, 2, 0)];
      dents := map[TOP := Dent("", ROOT, TOP, [])];
      cwd := map t | t in tasks :: TOP;
      files := [];
      at, rank, stray := map[], map[ROOT := 0], multiset{};
      new;
      assert Spells(ram[ROOT].kids, at, ROOT);
    }

    /** One component of d_lookup_path: the cached child, or a new dentry for what ramfs has. */
    method Child(d: Id, n: Name) returns (c: Option<Id>)
      requires Valid() && d in dents && Plain(n)
      modifies this`dents
      ensures Valid() && Extends(old(dents), dents)
      ensures c.None? <==> Key(dents[d].ino, n) !in at
      ensures c.Some? ==> c.value in dents && c.value != TOP && dents[c.value].name == n && dents[c.value].parent == d
    {
      c := FindKid(dents, dents[d].kids, n);
      FindKidIn(dents, dents[d].kids, n);
      if c.Some? {
        FindKidSpec(dents, at, d, n, c.value);
        assert DentOk(dents, at, c.value);
        return;
      }
      LookIsGet(ram, at, dents[d].ino, n);
      var x := Look(ram, dents[d].ino, n);
      if x.None? {
        return None;
      }
      var id := DAdd(d, n, x.value);
      return Some(id);
    }

    /** d_lookup_path. */
    method DLookup(path: string) returns (r: Option<Id>)
      requires Valid()
      modifies this`dents
      ensures Valid() && Extends(old(dents), dents) && (r.Some? ==> r.value in dents)
      ensures Canonical(path) ==> (r.Some? <==> Follow(at, ROOT, Split(path)).Some?)
      ensures Canonical(path) && r.Some? ==> Leads(dents, Split(path), r.value)
      ensures Canonical(path) ==> Walk(ram, ROOT, Split(path)) == if r.Some? then Some(dents[r.value].ino) else None
    {
      if Canonical(path) {
        WalkFollows(ram, at, ROOT, Split(path));
      }
      if path == "" || path[0] != '/' {
        return None;
      }
      var comps := Split(path);
      SplitGood(path);
      var d := TOP;
      for i := 0 to |comps|
        invariant Valid() && Extends(old(dents), dents) && d in dents
        invariant AllPlain(comps) ==> Leads(dents, comps[..i], d)
      {
        var n := comps[i];
        if n == "." {
          continue;
        }
        if n == ".." {
          assert DentOk(dents, at, d);
          d := if d == TOP then TOP else dents[d].parent;
          continue;
        }
        ghost var was := dents;
        var c := Child(d, n);
        assert comps[..i + 1] == comps[..i] + [n];
        if AllPlain(comps) {
          LeadsFollows(was, at, comps[..i], d);
          FollowSnoc(at, ROOT, comps[..i], n);
          LeadsExtends(was, dents, comps[..i], d);
        }
        if c.None? {
          if AllPlain(comps) {
            FollowStops(at, ROOT, comps[..i + 1], comps[i + 1..]);
            assert comps[..i + 1] + comps[i + 1..] == comps;
          }
          return None;
        }
        d := c.value;
        if AllPlain(comps) {
          LeadsSnoc(dents, comps[..i], d, n);
        }
      }
      assert comps[..|comps|] == comps;
      if AllPlain(comps) {
        LeadsFollows(dents, at, comps, d);
      }
      return Some(d);
    }

    /** ramfs_lookup. */
    method RamLookup(path: string) returns (r: Option<Ino>)
      ensures r == RamFind(ram, path)
    {
      if path == "" || path[0] != '/' {
        return None;
      }
      var comps, dir := Split(path), ROOT;
      while comps != []
        invariant Walk(ram, ROOT, Split(path)) == Walk(ram, dir, comps)
        decreases |comps|
      {
        var n := comps[0];
        comps := comps[1..];
        if n == "." {
          continue;
        }
        if n == ".." {
          if dir != ROOT && dir in ram {
            dir := ram[dir].parent;
          }
          continue;
        }
        var y := Look(ram, dir, n);
        if y.None? || comps == [] {
          return y;
        }
        if !IsDir(ram, y.value) {
          return None;
        }
        dir := y.value;
      }
      return Some(dir);
    }

    /** iget. */
    method Iget(x: Ino)
      requires Valid() && x in ram
      modifies this`ram
      ensures Valid() && ram == Counted(old(ram), x, old(ram)[x].count + 1)
    {
      CountedOk(ram, at, rank, x, ram[x].count + 1);
      ram := Counted(ram, x, ram[x].count + 1);
    }

    /** iput: the last user of an inode without a name frees it. */
    method Iput(x: Ino)
      requires Valid() && x in ram && ram[x].count > 0
      modifies this`ram, this`rank
      ensures Valid()
      ensures PutOnce(old(ram), ram, x)
    {
      CountedOk(ram, at, rank, x, ram[x].count - 1);
      ram := Counted(ram, x, ram[x].count - 1);
      Evict(x);
    }

    /** inode_maybe_evict. */
    method Evict(x: Ino)
      requires ListsOk(ram, at) && TreeOk(ram, at, rank, {x}) && x in ram
      modifies this`ram, this`rank
      ensures ListsOk(ram, at) && TreeOk(ram, at, rank, {}) && ram == Evicted(old(ram), x)
      ensures forall y :: y in old(rank) && y != x ==> y in rank && rank[y] == old(rank)[y]
    {
      if ram[x].nlink == 0 {
        Nameless(ram, at, rank, {x}, x);
        EvictedLists(ram, at, x);
      }
      EvictedTree(ram, at, rank, x);
      ghost var r := Evicted(ram, x);
      rank := map y | y in rank && y in r :: rank[y];
      if ram[x].count == 0 && ram[x].nlink == 0 {
        ram := ram - {x};
      }
    }

    /** path_parent_name and the lookup of the parent; both failures are ENOENT. */
    method Locate(path: string, ghost names: seq<Name>) returns (r: Option<(Id, Name)>)
      requires Valid() && IsPath(path, names)
      modifies this`dents
      ensures Valid() && Extends(old(dents), dents)
      ensures r.None? <==> names == [] || Follow(at, ROOT, Paths.Drop(names)) == None
      ensures r.Some? ==> names != [] && r.value.1 == Last(names) && r.value.0 in dents
      ensures r.Some? ==> Leads(dents, Paths.Drop(names), r.value.0)
    {
      ParentNames(names);
      var pn := ParentName(path);
      if pn.None? {
        return None;
      }
      PathSplits(pn.value.0, Paths.Drop(names));
      var p := DLookup(pn.value.0);
      return if p.None? then None else Some((p.value, pn.value.1));
    }

    /** The inode of a dentry that is a directory can hold entries. */
    lemma Holds(d: Id)
      requires Valid() && d in dents && IsDir(ram, dents[d].ino)
      ensures Attached(ram, at, dents[d].ino)
    {
      assert DentOk(dents, at, d);
      if d != TOP {
        assert DentKey(dents, d) in NamesOf(at, dents[d].ino);
      }
    }

    /** ramfs_alloc_inode and ramfs_add_child. */
    method NewInode(d: Ino, n: Name, k: Kind) returns (x: Ino)
      requires Valid() && Attached(ram, at, d) && Key(d, n) !in at
      modifies this`ram, this`at, this`rank
      ensures Valid() && x !in old(ram) && at == old(at)[Key(d, n) := x] && ram == Created(old(ram), d, n, x, k)
      ensures SameCounts(old(ram), ram) && SameKinds(old(ram), ram)
    {
      x := Fresh(ram.Keys);
      NewInodeOk(ram, at, rank, dents, d, n, x, k);
      ram := Created(ram, d, n, x, k);
      rank := rank[x := rank[d] + 1];
      at := at[Key(d, n) := x];
    }

    /** do_mkdir, and do_mknod with kind Chr. */
    method Make(path: string, k: Kind, ghost names: seq<Name>) returns (err: Errno)
      requires Valid() && IsPath(path, names)
      modifies this`ram, this`at, this`rank, this`dents
      ensures Valid() && Extends(old(dents), dents) && SameCounts(old(ram), ram)
      ensures err == MakeResult(old(ram), old(at), names)
      ensures err == Ok ==> MadeOne(old(ram), old(at), names, k, ram, at)
      ensures err != Ok ==> ram == old(ram) && at == old(at)
    {
      PathSplits(path, names);
      var loc := Locate(path, names);
      if loc.None? {
        return ENOENT;
      }
      err := MakeAt(path, loc.value.0, loc.value.1, k, names);
    }

    /** d_lookup of the new name, once the directory p of it is known. */
    method MakeAt(path: string, p: Id, n: Name, k: Kind, ghost names: seq<Name>) returns (err: Errno)
      requires Valid() && IsPath(path, names) && names != [] && n == Last(names) && Leads(dents, Paths.Drop(names), p)
      modifies this`ram, this`at, this`rank, this`dents
      ensures Valid() && Extends(old(dents), dents) && SameCounts(old(ram), ram)
      ensures err == MakeResult(old(ram), old(at), names)
      ensures err == Ok ==> MadeOne(old(ram), old(at), names, k, ram, at)
      ensures err != Ok ==> ram == old(ram) && at == old(at)
    {
      LeadsFollows(dents, at, Paths.Drop(names), p);
      FollowLast(at, names);
      PathSplits(path, names);
      var d := DLookup(path);
      if d.Some? {
        return EEXIST;
      }
      ghost var x;
      err, x := MakeIn(p, n, k);
      assert err == Ok ==> at == LinkedNames(old(at), names, x);
    }

    /** vfs_mkdir or vfs_mknod in the directory of dentry p, and d_add. */
    method MakeIn(p: Id, n: Name, k: Kind) returns (err: Errno, ghost x: Ino)
      requires Valid() && p in dents && Plain(n) && Key(dents[p].ino, n) !in at
      modifies this`ram, this`at, this`rank, this`dents
      ensures Valid() && Extends(old(dents), dents) && SameCounts(old(ram), ram)
      ensures err == if IsDir(old(ram), old(dents)[p].ino) then Ok else ENOTDIR
      ensures err == Ok ==> x !in old(ram) && x in ram && ram[x].kind == k && SameKinds(old(ram), ram)
      ensures err == Ok ==> at == old(at)[Key(old(dents)[p].ino, n) := x]
      ensures err != Ok ==> ram == old(ram) && at == old(at)
    {
      x := ROOT;
      SameAtOnce(ram);
      if !IsDir(ram, dents[p].ino) {
        return ENOTDIR, x;
      }
      Holds(p);
      NotCached(p, n);
      var y := NewInode(dents[p].ino, n, k);
      var _ := DAdd(p, n, y);
      return Ok, y;
    }

    lemma NotCached(p: Id, n: Name)
      requires Valid() && p in dents && Key(dents[p].ino, n) !in at
      ensures FindKid(dents, dents[p].kids, n) == None
    {
      var c := FindKid(dents, dents[p].kids, n);
      FindKidIn(dents, dents[p].kids, n);
      forall k | k in dents ensures c != Some(k) {
        FindKidSpec(dents, at, p, n, k);
        assert DentOk(dents, at, k);
      }
    }

    /** d_alloc and d_add. */
    method DAdd(p: Id, n: Name, x: Ino) returns (id: Id)
      requires Valid() && p in dents && Plain(n) && Get(at, Key(dents[p].ino, n)) == Some(x)
      requires FindKid(dents, dents[p].kids, n) == None
      modifies this`dents
      ensures Valid() && id !in old(dents) && dents == Attach(old(dents), p, n, x, id)
    {
      id := Fresh(dents.Keys);
      AttachOk(dents, at, p, n, x, id);
      AttachKeeps(dents, p, n, x, id, cwd);
      dents := Attach(dents, p, n, x, id);
    }

    /** cwd_fix and d_unlink of d_drop. */
    method DDrop(d: Id)
      requires d in dents && d != TOP && dents[d].parent in dents && dents[d].parent != d
      modifies this`dents, this`cwd
      ensures dents == Dcache.Drop(old(dents), d) && cwd.Keys == old(cwd).Keys
      ensures forall t :: t in cwd ==> cwd[t] == if old(cwd)[t] == d then old(dents)[d].parent else old(cwd)[t]
    {
      CwdFix(d, dents[d].parent);
      dents := Dcache.Drop(dents, d);
    }

    /** cwd_fix. */
    method CwdFix(from: Id, to: Id)
      modifies this`cwd
      ensures cwd.Keys == old(cwd).Keys
      ensures forall t :: t in cwd ==> cwd[t] == if old(cwd)[t] == from then to else old(cwd)[t]
    {
      var todo := cwd.Keys;
      while todo != {}
        invariant todo <= cwd.Keys && cwd.Keys == old(cwd).Keys
        invariant forall t :: t in cwd && t in todo ==> cwd[t] == old(cwd)[t]
        invariant forall t :: t in cwd && t !in todo ==> cwd[t] == if old(cwd)[t] == from then to else old(cwd)[t]
        decreases |todo|
      {
        var t :| t in todo;
        if cwd[t] == from {
          cwd := cwd[t := to];
        }
        todo := todo - {t};
      }
    }

    /** ramfs_remove_child with drop_nlink or clear_nlink. */
    method RemoveName(d: Ino, n: Name)
      requires ListsOk(ram, at) && TreeOk(ram, at, rank, {}) && Key(d, n) in at && EmptyDir(at, at[Key(d, n)])
      modifies this`ram, this`at, this`rank
      ensures ListsOk(ram, at) && TreeOk(ram, at, rank, {}) && at == old(at) - {Key(d, n)}
      ensures SameCounts(old(ram), ram)
      ensures forall y :: y in old(ram) && y != old(at)[Key(d, n)] ==>
                y in ram && ram[y].kind == old(ram)[y].kind && ram[y].parent == old(ram)[y].parent
      ensures forall y :: y in old(ram) && y != old(at)[Key(d, n)] ==> y in rank && rank[y] == old(rank)[y]
    {
      ghost var k := Key(d, n);
      OneName(ram, at, rank, {}, k);
      LookIsGet(ram, at, d, n);
      var x := Look(ram, d, n).value;
      UnlinkedLists(ram, at, k);
      UnlinkedTree(ram, at, rank, k);
      RemovedFrame(ram, d, n, x);
      ram := Unlinked(ram, d, n, x);
      at := at - {k};
      Evict(x);
    }

    /** d_lookup_path of a path ramfs has just lost, and d_drop of what is still cached for it. */
    method Forget(path: string, p: Id, ghost ram0: Ram, ghost at0: Names, ghost rank0: Ranks)
      requires ListsOk(ram, at) && TreeOk(ram, at, rank, {}) && DcOk(dents, at0) && TreeOk(ram0, at0, rank0, {})
      requires PlainNames(dents) && AllIn(cwd, dents)
      requires p in dents && Split(path) != [] && Leads(dents, Paths.Drop(Split(path)), p)
      requires Key(dents[p].ino, Last(Split(path))) in at0 && EmptyDir(at0, at0[Key(dents[p].ino, Last(Split(path)))])
      requires at == at0 - {Key(dents[p].ino, Last(Split(path)))}
      modifies this`dents, this`cwd
      ensures Valid() && cwd.Keys == old(cwd).Keys
    {
      var names := Split(path);
      CacheWalkLeads(dents, at0, Paths.Drop(names), p);
      assert names == Paths.Drop(names) + [Last(names)];
      CacheWalkSnoc(dents, TOP, Paths.Drop(names), Last(names));
      ForgetOk(dents, ram0, at0, rank0, p, Last(names));
      var d := CacheWalk(dents, TOP, names);
      assert CacheWalk(dents, p, [Last(names)]) == FindKid(dents, dents[p].kids, Last(names)) by {
        var c := FindKid(dents, dents[p].kids, Last(names));
        assert c.Some? ==> CacheWalk(dents, c.value, []) == c;
      }
      if d.Some? && d.value != p {
        DDrop(d.value);
        DropKeeps(old(dents), d.value, old(cwd), cwd);
      }
    }

    /** vfs_lookup outside /proc: follows up to 8 symbolic links and takes a reference. */
    method VfsLookup(path: string, ghost names: seq<Name>) returns (r: Option<Ino>)
      requires Valid() && IsPath(path, names)
      modifies this`ram
      ensures Valid() && r == Chase(old(ram), path, MAX_LINKS) && (r.None? ==> ram == old(ram))
      ensures r.Some? ==> r.value in old(ram) && !old(ram)[r.value].kind.Lnk?
      ensures r.Some? ==> ram == Counted(old(ram), r.value, old(ram)[r.value].count + 1)
      ensures var x := Follow(at, ROOT, names);
              (x.None? ==> r.None?) && (x.Some? ==> x.value in old(ram) && (!old(ram)[x.value].kind.Lnk? ==> r == x))
    {
      ChaseFollows(ram, at, rank, path, names, MAX_LINKS);
      ChaseEnds(ram, at, rank, path, MAX_LINKS);
      r := FollowLinks(path);
      if r.Some? {
        Iget(r.value);
      }
    }

    /** The loop of vfs_lookup. */
    method FollowLinks(path: string) returns (r: Option<Ino>)
      requires Valid()
      ensures r == Chase(ram, path, MAX_LINKS)
    {
      var cur := path;
      for depth := 0 to MAX_LINKS
        invariant Chase(ram, path, MAX_LINKS) == Chase(ram, cur, MAX_LINKS - depth)
      {
        r := RamLookup(cur);
        if r.None? {
          return;
        }
        WalkStays(ram, at, rank, ROOT, Split(cur));
        if !ram[r.value].kind.Lnk? {
          return;
        }
        var next := LinkTarget(cur, ram[r.value].kind.target);
        if next.None? {
          return None;
        }
        cur := next.value;
      }
      return None;
    }

    /** The body of the loop once a link was found: ramfs_readlink and the new path. */
    method LinkTarget(cur: string, target: string) returns (next: Option<string>)
      ensures next == Redirect(cur, target)
    {
      var text := Truncated(target);
      if text != "" && text[0] == '/' {
        return Some(text);
      }
      var p := ParentName(cur);
      if p.None? {
        return None;
      }
      var q := PathResolve(p.value.0, text);
      return if q.Path? then Some(q.path) else None;
    }

    /** do_unlink. A success keeps the reference it took on what the path leads to. */
    method Unlink(path: string, ghost names: seq<Name>) returns (err: Errno)
      requires Valid() && IsPath(path, names)
      modifies this`ram, this`at, this`rank, this`dents, this`cwd, this`stray
      ensures Valid() && cwd.Keys == old(cwd).Keys && err == UnlinkResult(old(ram), old(at), path, names)
      ensures UnlinkCounts(old(ram), old(stray), path, err, ram, stray)
      ensures err == Ok ==> Gone(old(at), names, at)
      ensures err == Ok ==> Follow(old(at), ROOT, names).Some? && !IsDir(old(ram), Follow(old(at), ROOT, names).value)
      ensures err != Ok ==> at == old(at)
    {
      SameAtOnce(ram);
      var loc := Locate(path, names);
      if names != [] {
        FollowLast(at, names);
      }
      if loc.None? {
        return ENOENT;
      }
      var (p, n) := loc.value;
      ChaseFollows(ram, at, rank, path, names, MAX_LINKS);
      err := UnlinkAt(path, p, n, names);
    }

    /** The lookup of do_unlink, once the directory p of the name is known. */
    method UnlinkAt(path: string, p: Id, n: Name, ghost names: seq<Name>) returns (err: Errno)
      requires Valid() && IsPath(path, names) && names != [] && n == Last(names) && Leads(dents, Paths.Drop(names), p)
      modifies this`ram, this`at, this`rank, this`dents, this`cwd, this`stray
      ensures Valid() && cwd.Keys == old(cwd).Keys && err == UnlinkResult(old(ram), old(at), path, names)
      ensures UnlinkCounts(old(ram), old(stray), path, err, ram, stray)
      ensures err == Ok ==> Gone(old(at), names, at)
      ensures err != Ok ==> at == old(at)
    {
      LeadsFollows(dents, at, Paths.Drop(names), p);
      var y := LookupEntry(path, p, n, names);
      if y.None? {
        return ENOENT;
      }
      err := UnlinkHeld(path, p, n, y.value, names, old(ram));
    }

    /** vfs_lookup of a path whose last name is looked up in the directory of dentry p. */
    method LookupEntry(path: string, p: Id, n: Name, ghost names: seq<Name>) returns (y: Option<Ino>)
      requires Valid() && IsPath(path, names) && names != [] && n == Last(names) && Leads(dents, Paths.Drop(names), p)
      modifies this`ram
      ensures Valid() && p in dents && y == Chase(old(ram), path, MAX_LINKS)
      ensures y.None? ==> ram == old(ram)
      ensures y.Some? ==> y.value in old(ram) && ram == Counted(old(ram), y.value, old(ram)[y.value].count + 1)
      ensures y.Some? ==> Key(dents[p].ino, n) in at
      ensures y.Some? && IsDir(ram, at[Key(dents[p].ino, n)]) ==> IsDir(ram, y.value)
    {
      FollowLast(at, names);
      LeadsFollows(dents, at, Paths.Drop(names), p);
      y := VfsLookup(path, names);
    }

    /**
     * The rest of do_unlink, with tmp.inode a reference on what the path leads to; was is the state before it
     * was taken. A successful ramfs_inode_unlink clears tmp.inode, and the iput at the end then puts nothing.
     */
    method UnlinkHeld(path: string, p: Id, n: Name, y: Ino, ghost names: seq<Name>, ghost was: Ram) returns (err: Errno)
      requires Valid() && p in dents && IsPath(path, names) && names != [] && Last(names) == n
      requires Leads(dents, Paths.Drop(names), p)
      requires Key(dents[p].ino, n) in at && y in was && ram == Counted(was, y, was[y].count + 1)
      requires Chase(was, path, MAX_LINKS) == Some(y)
      requires IsDir(ram, at[Key(dents[p].ino, n)]) ==> IsDir(ram, y)
      modifies this`ram, this`at, this`rank, this`dents, this`cwd, this`stray
      ensures Valid() && cwd.Keys == old(cwd).Keys && err == if IsDir(was, y) then EISDIR else Ok
      ensures UnlinkCounts(was, old(stray), path, err, ram, stray)
      ensures at == if err == Ok then old(at) - {Key(old(dents)[p].ino, n)} else old(at)
    {
      ghost var mid := ram;
      SameAtOnce(ram);
      var inode := Some(y);
      if IsDir(ram, y) {
        err := EISDIR;
      } else {
        FileIsEmpty(ram, at, at[Key(dents[p].ino, n)]);
        PathSplits(path, names);
        UnlinkFile(path, p, n);
        TakenStays(was, mid, ram, y);
        inode := None;
        stray := stray + multiset{y};
        err := Ok;
      }
      if inode.Some? {
        Iput(inode.value);
        TakenAndPut(was, mid, ram, y);
      }
    }

    /** ramfs_inode_unlink of a file, and d_drop of its dentry. */
    method UnlinkFile(path: string, p: Id, n: Name)
      requires Valid() && p in dents && Split(path) != [] && Last(Split(path)) == n
      requires Leads(dents, Paths.Drop(Split(path)), p)
      requires Key(dents[p].ino, n) in at && EmptyDir(at, at[Key(dents[p].ino, n)])
      modifies this`ram, this`at, this`rank, this`dents, this`cwd
      ensures Valid() && cwd.Keys == old(cwd).Keys && at == old(at) - {Key(old(dents)[p].ino, n)}
      ensures SameCounts(old(ram), ram)
    {
      ghost var ram0, at0, rank0 := ram, at, rank;
      RemoveName(dents[p].ino, n);
      Forget(path, p, ram0, at0, rank0);
    }

    /** do_rmdir. */
    method Rmdir(path: string, ghost names: seq<Name>) returns (err: Errno)
      requires Valid() && IsPath(path, names)
      modifies this`ram, this`at, this`rank, this`dents, this`cwd
      ensures Valid() && cwd.Keys == old(cwd).Keys && SameCounts(old(ram), ram)
      ensures err == RmdirResult(old(ram), old(at), names)
      ensures err == Ok ==> Gone(old(at), names, at)
      ensures err != Ok ==> at == old(at)
      ensures err != Ok && err != ENOTEMPTY ==> ram == old(ram)
      ensures err == ENOTEMPTY ==> names != [] && Follow(at, ROOT, Paths.Drop(names)).Some?
      ensures err == ENOTEMPTY ==>
                var d := Follow(at, ROOT, Paths.Drop(names)).value;
                d in old(ram) && ram == Requeued(old(ram), d, Last(names), Follow(at, ROOT, names).value)
    {
      PathSplits(path, names);
      FollowStays(ram, at, rank, ROOT, names);
      FollowStays(ram, at, rank, ROOT, Paths.Drop(names));
      SameAtOnce(ram);
      var f := DLookup(path);
      if f.Some? {
        LeadsFollows(dents, at, names, f.value);
      }
      if f.None? || f.value == TOP {
        RootIsRoot(names, f);
        return ENOENT;
      }
      var d := f.value;
      LeadsSplit(d, names);
      if !IsDir(ram, dents[d].ino) {
        return ENOTDIR;
      }
      EmptyIff(ram, at, dents[d].ino);
      FollowLast(at, names);
      if ram[dents[d].ino].kids != [] {
        Requeue(dents[dents[d].parent].ino, dents[d].name, dents[d].ino);
        return ENOTEMPTY;
      }
      RemoveEntry(d);
      return Ok;
    }

    /** The refusal of ramfs_inode_rmdir: the entry was removed and is added again, at the head of the list. */
    method Requeue(d: Ino, n: Name, x: Ino)
      requires Valid() && Get(at, Key(d, n)) == Some(x)
      modifies this`ram
      ensures Valid() && d in old(ram) && ram == Requeued(old(ram), d, n, x) && SameCounts(old(ram), ram)
    {
      RequeuedOk(ram, at, rank, d, n, x);
      ram := ram[d := ram[d].(kids := [Entry(n, x)] + Ramfs.Remove(ram[d].kids, n))];
    }

    lemma RootIsRoot(names: seq<Name>, f: Option<Id>)
      requires Valid() && (f.Some? ==> Leads(dents, names, f.value)) && (f.None? <==> Follow(at, ROOT, names).None?)
      ensures f.None? || f.value == TOP <==> names == [] || Follow(at, ROOT, names).None?
    {
    }

    lemma LeadsSplit(d: Id, names: seq<Name>)
      requires Valid() && names != [] && Leads(dents, names, d)
      ensures d in dents && dents[d].parent in dents && dents[d].parent != d
      ensures Get(at, DentKey(dents, d)) == Some(dents[d].ino)
      ensures Follow(at, ROOT, Paths.Drop(names)) == Some(dents[dents[d].parent].ino) && dents[d].name == Last(names)
      ensures FindKid(dents, dents[dents[d].parent].kids, Last(names)) == Some(d)
    {
      assert DentOk(dents, at, d);
      LeadsFollows(dents, at, Paths.Drop(names), dents[d].parent);
      FindKidSpec(dents, at, dents[d].parent, Last(names), d);
      OneName(ram, at, rank, {}, DentKey(dents, d));
    }

    /** An entry without children goes, in ramfs and from the cache: rmdir, and what rename replaces. */
    method RemoveEntry(d: Id)
      requires Valid() && d in dents && d != TOP && dents[d].parent in dents
      requires Get(at, DentKey(dents, d)) == Some(dents[d].ino)
      requires FindKid(dents, dents[dents[d].parent].kids, dents[d].name) == Some(d) && EmptyDir(at, dents[d].ino)
      modifies this`ram, this`at, this`rank, this`dents, this`cwd
      ensures Valid() && cwd.Keys == old(cwd).Keys && SameCounts(old(ram), ram)
      ensures at == old(at) - {DentKey(old(dents), d)} && dents == Dcache.Drop(old(dents), d)
      ensures forall y :: y in old(ram) && y != old(dents)[d].ino ==>
                y in ram && ram[y].kind == old(ram)[y].kind && ram[y].parent == old(ram)[y].parent
      ensures forall y :: y in old(ram) && y != old(dents)[d].ino ==> y in rank && rank[y] == old(rank)[y]
    {
      ForgetOk(dents, ram, at, rank, dents[d].parent, dents[d].name);
      RemoveName(dents[dents[d].parent].ino, dents[d].name);
      DDrop(d);
      DropKeeps(old(dents), d, old(cwd), cwd);
    }

    /** ksys_chdir of task t. */
    method Chdir(t: nat, path: string, ghost names: seq<Name>) returns (err: Errno)
      requires Valid() && IsPath(path, names) && t in cwd
      modifies this`dents, this`cwd
      ensures Valid() && Extends(old(dents), dents)
      ensures err == ChdirResult(ram, at, names)
      ensures err != Ok ==> cwd == old(cwd)
      ensures err == Ok ==> t in cwd && cwd == old(cwd)[t := cwd[t]] && Leads(dents, names, cwd[t])
    {
      PathSplits(path, names);
      var d := DLookup(path);
      if d.None? {
        return ENOENT;
      }
      LeadsFollows(dents, at, names, d.value);
      if !IsDir(ram, dents[d.value].ino) {
        return ENOTDIR;
      }
      cwd := cwd[t := d.value];
      forall u | u in cwd ensures CwdIn(cwd, dents, u) {
        if u != t {
          assert CwdIn(old(cwd), dents, u);
        }
      }
      return Ok;
    }

    /** Where link and symlink put a new name: the directory, unless one of their checks fails. */
    method Slot(path: string, long: bool, ghost names: seq<Name>) returns (err: Errno, d: Ino, n: Name)
      requires Valid() && IsPath(path, names)
      modifies this`dents
      ensures Valid() && Extends(old(dents), dents)
      ensures err == SlotResult(ram, at, names, long)
      ensures err == Ok ==> Follow(at, ROOT, Paths.Drop(names)) == Some(d) && n == Last(names) && Attached(ram, at, d)
      ensures err == Ok ==> Key(d, n) !in at
    {
      d, n := ROOT, "";
      if names != [] {
        FollowLast(at, names);
      }
      var loc := Locate(path, names);
      if loc.None? {
        return ENOENT, d, n;
      }
      var (p, m) := loc.value;
      LeadsFollows(dents, at, Paths.Drop(names), p);
      d, n := dents[p].ino, m;
      if !IsDir(ram, d) {
        return ENOTDIR, d, n;
      }
      if long {
        return ENAMETOOLONG, d, n;
      }
      LookIsGet(ram, at, d, n);
      if Look(ram, d, n).Some? {
        return EEXIST, d, n;
      }
      Holds(p);
      err := Ok;
    }

    /** vfs_lookup of a name about to be made, and iput of what was found. */
    method Exists(path: string, ghost names: seq<Name>) returns (yes: bool)
      requires Valid() && IsPath(path, names)
      modifies this`ram, this`rank
      ensures Valid() && ram == old(ram) && yes == Chase(ram, path, MAX_LINKS).Some?
      ensures yes ==> NewNameResult(ram, at, names) == EEXIST
      ensures !yes ==> names != []
    {
      ghost var was := ram;
      assert forall y | y in was :: Kept(was, y);
      Taken(was, at, names);
      var x := VfsLookup(path, names);
      if x.None? {
        return false;
      }
      PutAgain(x.value, was);
      return true;
    }

    /** iput of a reference just taken in the state was. */
    method PutAgain(x: Ino, ghost was: Ram)
      requires Valid() && x in was && ram == Counted(was, x, was[x].count + 1) && Kept(was, x)
      modifies this`ram, this`rank
      ensures Valid() && ram == was
    {
      Iput(x);
      PutBack(was, ram, x);
    }

    /** do_symlink. */
    method Symlink(target: string, path: string, ghost names: seq<Name>) returns (err: Errno)
      requires Valid() && IsPath(path, names)
      modifies this`ram, this`at, this`rank, this`dents
      ensures Valid() && Extends(old(dents), dents) && SameCounts(old(ram), ram)
      ensures err == SymlinkResult(old(ram), old(at), target, path, names)
      ensures err == Ok ==> MadeOne(old(ram), old(at), names, Lnk(target), ram, at)
      ensures err != Ok ==> at == old(at)
    {
      var there := Exists(path, names);
      if there {
        return EEXIST;
      }
      SameAtOnce(ram);
      var d, n;
      err, d, n := Slot(path, |target| >= PATH_MAX, names);
      if err == Ok {
        var x := NewInode(d, n, Lnk(target));
        assert x !in old(ram) && x in ram && ram[x].kind == Lnk(target);
      }
    }

    /** do_link. */
    method Link(oldPath: string, newPath: string, ghost from: seq<Name>, ghost to: seq<Name>) returns (err: Errno)
      requires Valid() && IsPath(oldPath, from) && IsPath(newPath, to)
      modifies this`ram, this`at, this`rank, this`dents
      ensures Valid() && SameCounts(old(ram), ram)
      ensures err == LinkResult(old(ram), old(at), oldPath, to)
      ensures err == Ok ==> at == LinkedNames(old(at), to, Chase(old(ram), oldPath, MAX_LINKS).value)
      ensures err != Ok ==> at == old(at)
    {
      var o := VfsLookup(oldPath, from);
      if o.None? {
        return ENOENT;
      }
      if IsDir(ram, o.value) {
        SameAtOnce(ram);
        ghost var mid := ram;
        Iput(o.value);
        TakenAndPut(old(ram), mid, ram, o.value);
        return EPERM;
      }
      err := LinkHeld(o.value, newPath, to, old(ram));
    }

    /** The rest of do_link, with a reference on the file; was is the state before it was taken. */
    method LinkHeld(x: Ino, newPath: string, ghost to: seq<Name>, ghost was: Ram) returns (err: Errno)
      requires Valid() && IsPath(newPath, to) && x in ram && !IsDir(ram, x) && x in was
      requires ram == Counted(was, x, was[x].count + 1)
      modifies this`ram, this`at, this`rank, this`dents
      ensures Valid() && SameCounts(was, ram)
      ensures err == NewNameResult(was, old(at), to)
      ensures at == if err == Ok then LinkedNames(old(at), to, x) else old(at)
    {
      NewNameCounts(was, x, was[x].count + 1, at, to);
      err := LinkNew(x, newPath, to);
      ghost var mid := ram;
      Iput(x);
      TakenAndPut(was, mid, ram, x);
    }

    /** The checks of do_link on the new path, and ramfs_inode_link. */
    method LinkNew(x: Ino, newPath: string, ghost to: seq<Name>) returns (err: Errno)
      requires Valid() && IsPath(newPath, to) && x in ram && !IsDir(ram, x) && ram[x].count > 0
      modifies this`ram, this`at, this`rank, this`dents
      ensures Valid() && SameCounts(old(ram), ram) && x in ram && ram[x].count > 0
      ensures err == NewNameResult(old(ram), old(at), to)
      ensures at == if err == Ok then LinkedNames(old(at), to, x) else old(at)
    {
      var there := Exists(newPath, to);
      SameAtOnce(ram);
      if there {
        return EEXIST;
      }
      var d, n;
      SlotIsMake(ram, at, to);
      err, d, n := Slot(newPath, false, to);
      if err == Ok {
        LinkedCounts(ram, d, n, x);
        AddName(d, n, x);
      }
    }

    /** ramfs_inode_link. */
    method AddName(d: Ino, n: Name, x: Ino)
      requires Valid() && Attached(ram, at, d) && Key(d, n) !in at && x in ram && !IsDir(ram, x)
      modifies this`ram, this`at
      ensures Valid() && at == old(at)[Key(d, n) := x] && ram == LinkedTo(old(ram), d, n, x)
    {
      LinkedLists(ram, at, d, n, x);
      LinkedTree(ram, at, rank, d, n, x);
      NamesGrow(dents, at, at[Key(d, n) := x]);
      ram := LinkedTo(ram, d, n, x);
      at := at[Key(d, n) := x];
    }

    /** The ancestor loop of ramfs_inode_rename; it ends because ranks fall towards the root. */
    method IsAbove(x: Ino, start: Ino) returns (r: bool)
      requires Valid() && Attached(ram, at, start)
      ensures r <==> Under(ram, rank, x, start)
    {
      var p := start;
      while p != x && p != ROOT
        invariant Attached(ram, at, p) && (Under(ram, rank, x, start) <==> Under(ram, rank, x, p))
        decreases rank[p]
      {
        ghost var k :| k in NamesOf(at, p);
        assert KeyOk(ram, at, rank, k);
        p := ram[p].parent;
      }
      r := p == x;
    }

    /** ramfs moves the name, then d_move follows. */
    method MoveEntry(d: Id, p: Id, n: Name)
      requires Valid() && d in dents && d != TOP && p in dents && dents[d].parent in dents && Plain(n)
      requires Get(at, DentKey(dents, d)) == Some(dents[d].ino)
      requires MayMove(ram, at, rank, DentKey(dents, d), Key(dents[p].ino, n))
      modifies this`ram, this`at, this`rank, this`dents
      ensures Valid() && at == MovedNames(old(at), DentKey(old(dents), d), Key(old(dents)[p].ino, n))
      ensures SameCounts(old(ram), ram)
    {
      ghost var k, l := DentKey(dents, d), Key(dents[p].ino, n);
      OneName(ram, at, rank, {}, k);
      assert dents[d].ino != dents[p].ino;
      MovedLists(ram, at, k, l);
      MovedTree(ram, at, rank, k, l);
      MoveOk(dents, ram, at, rank, d, p, n);
      MoveKeeps(dents, d, p, n, cwd);
      MovedCounts(ram, k, l, dents[d].ino);
      rank := MovedRank(ram, at, rank, k, l);
      ram := Moved(ram, Key(dents[dents[d].parent].ino, dents[d].name), Key(dents[p].ino, n), dents[d].ino);
      at := MovedNames(at, k, l);
      dents := MoveDent(dents, d, p, n);
    }

    /** vfs_rename of the entry of dentry d to name n under dentry p, where target is cached if it exists. */
    method RenameDents(d: Id, p: Id, target: Option<Id>, n: Name) returns (err: Errno)
      requires Valid() && d in dents && d != TOP && p in dents && dents[d].parent in dents && Plain(n)
      requires Get(at, DentKey(dents, d)) == Some(dents[d].ino) && dents[d].ino in ram
      requires target == FindKid(dents, dents[p].kids, n) && (target.None? <==> Key(dents[p].ino, n) !in at)
      requires target.Some? ==>
                target.value in dents && dents[target.value].ino != dents[d].ino && dents[target.value].ino in ram
      modifies this`ram, this`at, this`rank, this`dents, this`cwd
      ensures Valid() && cwd.Keys == old(cwd).Keys && SameCounts(old(ram), ram)
      ensures err == MoveResult(old(ram), old(at), old(rank), old(dents)[d].ino, Key(old(dents)[p].ino, n))
      ensures err == Ok ==> at == MovedNames(old(at), DentKey(old(dents), d), Key(old(dents)[p].ino, n))
      ensures err != Ok ==> at == old(at) && ram == old(ram)
    {
      var src, dir := dents[d].ino, dents[p].ino;
      if !IsDir(ram, dir) {
        return ENOTDIR;
      }
      Holds(p);
      if IsDir(ram, src) {
        var above := IsAbove(src, dir);
        if above {
          return EINVAL;
        }
      }
      if target.Some? {
        TargetFacts(p, target.value, n);
        var dst := dents[target.value].ino;
        if IsDir(ram, src) {
          if !IsDir(ram, dst) {
            return ENOTDIR;
          }
          EmptyIff(ram, at, dst);
          if ram[dst].kids != [] {
            return ENOTEMPTY;
          }
        } else if IsDir(ram, dst) {
          return EISDIR;
        } else {
          FileIsEmpty(ram, at, dst);
        }
        ReplaceEntry(d, p, target.value, n);
        return Ok;
      }
      MoveEntry(d, p, n);
      return Ok;
    }

    lemma TargetFacts(p: Id, t: Id, n: Name)
      requires Valid() && p in dents && t in dents && FindKid(dents, dents[p].kids, n) == Some(t)
      ensures t != TOP && dents[t].parent == p && dents[t].name == n
      ensures Get(at, Key(dents[p].ino, n)) == Some(dents[t].ino)
    {
      FindKidSpec(dents, at, p, n, t);
      assert DentOk(dents, at, t);
    }

    /** The target goes first, then the entry moves to its name. */
    method ReplaceEntry(d: Id, p: Id, t: Id, n: Name)
      requires Valid() && d in dents && d != TOP && p in dents && dents[d].parent in dents && Plain(n)
      requires Get(at, DentKey(dents, d)) == Some(dents[d].ino)
      requires t in dents && t != TOP && dents[t].parent == p && dents[t].name == n
      requires FindKid(dents, dents[p].kids, n) == Some(t)
      requires Get(at, Key(dents[p].ino, n)) == Some(dents[t].ino) && dents[t].ino != dents[d].ino
      requires EmptyDir(at, dents[t].ino)
      requires Attached(ram, at, dents[p].ino)
      requires IsDir(ram, dents[d].ino) ==> !Under(ram, rank, dents[d].ino, dents[p].ino)
      modifies this`ram, this`at, this`rank, this`dents, this`cwd
      ensures Valid() && cwd.Keys == old(cwd).Keys && SameCounts(old(ram), ram)
      ensures at == MovedNames(old(at), DentKey(old(dents), d), Key(old(dents)[p].ino, n))
    {
      ghost var k, l, dst := DentKey(dents, d), Key(dents[p].ino, n), dents[t].ino;
      OneName(ram, at, rank, {}, l);
      assert k.dir != dst;
      RemoveEntry(t);
      ghost var mid := at;
      assert DentKey(dents, d) == k && dents[p].ino == l.dir;
      StillMovable(old(ram), old(at), old(rank), ram, rank, k, l);
      MoveEntry(d, p, n);
      assert MovedNames(mid, k, l) == MovedNames(old(at), k, l);
    }

    /** do_rename. */
    method Rename(oldPath: string, newPath: string, ghost from: seq<Name>, ghost to: seq<Name>) returns (err: Errno)
      requires Valid() && IsPath(oldPath, from) && IsPath(newPath, to)
      modifies this`ram, this`at, this`rank, this`dents, this`cwd
      ensures Valid() && cwd.Keys == old(cwd).Keys && SameCounts(old(ram), ram)
      ensures err == RenameResult(old(ram), old(at), old(rank), from, to)
      ensures err == Ok ==> at == RenamedNames(old(at), from, to)
      ensures err != Ok ==> at == old(at) && ram == old(ram)
    {
      PathSplits(oldPath, from);
      PathSplits(newPath, to);
      var a := Locate(oldPath, from);
      var b := Locate(newPath, to);
      if a.None? || b.None? {
        FollowNone(at, from);
        return ENOENT;
      }
      FollowLast(at, from);
      FollowLast(at, to);
      var p, n := b.value.0, b.value.1;
      ghost var was := dents;
      var f := DLookup(oldPath);
      if f.None? {
        return ENOENT;
      }
      ghost var mid := dents;
      var t := DLookup(newPath);
      assert Extends(was, dents);
      LeadsExtends(was, dents, Paths.Drop(to), p);
      LeadsExtends(mid, dents, from, f.value);
      err := RenameFound(f.value, p, t, n, from, to);
    }

    /** The end of do_rename, with all four dentries at hand. */
    method RenameFound(d: Id, p: Id, t: Option<Id>, n: Name, ghost from: seq<Name>, ghost to: seq<Name>)
      returns (err: Errno)
      requires Valid() && from != [] && to != [] && n == Last(to) && Plain(n)
      requires Leads(dents, from, d) && Leads(dents, Paths.Drop(to), p) && (t.Some? ==> Leads(dents, to, t.value))
      requires t.None? <==> Follow(at, ROOT, to).None?
      modifies this`ram, this`at, this`rank, this`dents, this`cwd
      ensures Valid() && cwd.Keys == old(cwd).Keys && SameCounts(old(ram), ram)
      ensures err == RenameResult(old(ram), old(at), old(rank), from, to)
      ensures err == Ok ==> at == RenamedNames(old(at), from, to)
      ensures err != Ok ==> at == old(at) && ram == old(ram)
    {
      LeadsSplit(d, from);
      FollowLast(at, from);
      FollowLast(at, to);
      LeadsFollows(dents, at, from, d);
      LeadsFollows(dents, at, Paths.Drop(to), p);
      FollowStays(ram, at, rank, ROOT, from);
      FollowStays(ram, at, rank, ROOT, to);
      if t.Some? {
        LeadsFollows(dents, at, to, t.value);
        LeadsSplit(t.value, to);
        LeadsOnce(dents, at, Paths.Drop(to), p, dents[t.value].parent);
        if dents[t.value].ino == dents[d].ino {
          return Ok;
        }
      } else {
        NotCached(p, n);
      }
      err := RenameDents(d, p, t, n);
    }

    /** Every cached dentry has a path. */
    lemma PathTo(d: Id) returns (names: seq<Name>)
      requires Valid() && d in dents
      ensures Leads(dents, names, d) && AllPlain(names)
    {
      assert DentOk(dents, at, d) && NamedPlainly(dents, d);
      if d == TOP {
        return [];
      }
      assert KeyOk(ram, at, rank, DentKey(dents, d));
      var up := PathToDir(dents[d].parent);
      LeadsSnoc(dents, up, d, dents[d].name);
      return up + [dents[d].name];
    }

    /** And only one. */
    lemma OnlyPath(names: seq<Name>, d: Id)
      requires Leads(dents, names, d)
      ensures forall up | Leads(dents, up, d) :: up == names
    {
      forall up | Leads(dents, up, d) ensures up == names { LeadsUnique(dents, up, names, d); }
    }

    lemma PathToDir(d: Id) returns (names: seq<Name>)
      requires Valid() && d in dents && IsDir(ram, dents[d].ino)
      ensures Leads(dents, names, d) && AllPlain(names)
      decreases rank[dents[d].ino]
    {
      assert DentOk(dents, at, d) && NamedPlainly(dents, d);
      if d == TOP {
        return [];
      }
      assert KeyOk(ram, at, rank, DentKey(dents, d));
      var up := PathToDir(dents[d].parent);
      LeadsSnoc(dents, up, d, dents[d].name);
      return up + [dents[d].name];
    }

    /** dentry_path, built from the end of a buffer; nothing exactly when the path does not fit. */
    method DentryPath(d: Id) returns (r: Option<string>, ghost names: seq<Name>)
      requires Valid() && d in dents
      ensures Leads(dents, names, d) && AllPlain(names)
      ensures forall up | Leads(dents, up, d) :: r == if |Show(up)| < PATH_MAX then Some(Show(up)) else None
    {
      names := PathTo(d);
      OnlyPath(names, d);
      if d == TOP {
        return Some("/"), names;
      }
      var cur, text, pos := d, "", PATH_MAX - 1;
      ghost var k := |names|;
      assert names[..k] == names;
      while cur != TOP
        invariant cur in dents && pos >= 0 && 0 <= k <= |names| && Leads(dents, names[..k], cur)
        invariant text == Join(names[k..]) && |text| == PATH_MAX - 1 - pos
        decreases k
      {
        assert DentOk(dents, at, cur);
        var n := dents[cur].name;
        assert k > 0 && n == names[k - 1] && names[..k][..k - 1] == names[..k - 1];
        assert names[k - 1..] == [n] + names[k..];
        JoinPrefix([n], names[k..]);
        if pos < |n| + 1 {
          assert names == names[..k - 1] + names[k - 1..];
          JoinPrefix(names[..k - 1], names[k - 1..]);
          return None, names;
        }
        pos := pos - |n| - 1;
        text := "/" + n + text;
        k := k - 1;
        cur := dents[cur].parent;
      }
      assert names[k..] == names;
      return Some(text), names;
    }

    /** A dentry is found again under its own path. */
    method LookupOfPath(d: Id) returns (path: Option<string>, r: Option<Id>)
      requires Valid() && d in dents
      modifies this`dents
      ensures Valid() && (path.Some? ==> r == Some(d))
    {
      ghost var names;
      path, names := DentryPath(d);
      r := None;
      if path.Some? {
        PathSplits(path.value, names);
        LeadsFollows(dents, at, names, d);
        r := DLookup(path.value);
        LeadsExtends(old(dents), dents, names, d);
        LeadsOnce(dents, at, names, d, r.value);
      }
    }

    /** getname_from_user: a path of task t made canonical; the directory matters to relative ones only. */
    method GetName(t: nat, raw: string) returns (r: Resolved, ghost from: seq<Name>)
      requires Valid() && t in cwd
      ensures Leads(dents, from, cwd[t]) && AllPlain(from)
      ensures forall up | Leads(dents, up, cwd[t]) :: r == UserPath(up, raw)
    {
      assert CwdIn(cwd, dents, t);
      ghost var home := PathTo(cwd[t]);
      OnlyPath(home, cwd[t]);
      if |raw| >= PATH_MAX || raw == "" || raw[0] == '/' {
        from := home;
        if |raw| >= PATH_MAX {
          return TooLong, from;
        }
        if raw == "" {
          return NotFound, from;
        }
        r := PathResolve("/", raw);
        ResolveNames([], raw);
        return;
      }
      var base;
      base, from := DentryPath(cwd[t]);
      if base.None? {
        return TooLong, from;
      }
      r := PathResolve(base.value, raw);
      ResolveNames(from, raw);
    }

    /** ramfs_create: the directory is found in ramfs alone, and no dentry is made. */
    method CreateFile(path: string, ghost names: seq<Name>) returns (err: Errno)
      requires Valid() && IsPath(path, names)
      modifies this`ram, this`at, this`rank
      ensures Valid() && SameCounts(old(ram), ram) && err == CreateResult(old(ram), old(at), names)
      ensures err == Ok ==> MadeOne(old(ram), old(at), names, File, ram, at)
      ensures err == Ok ==> Follow(at, ROOT, names).Some? && IsFile(ram, Follow(at, ROOT, names).value)
      ensures err != Ok ==> ram == old(ram) && at == old(at)
    {
      PathSplits(path, names);
      var comps := Split(path);
      if comps == [] {
        return ENOENT;
      }
      WalkFollows(ram, at, ROOT, Paths.Drop(names));
      FollowLast(at, names);
      var d := Walk(ram, ROOT, Paths.Drop(comps));
      if d.None? || !IsDir(ram, d.value) {
        return ENOENT;
      }
      LookIsGet(ram, at, d.value, Last(comps));
      if Look(ram, d.value, Last(comps)).Some? {
        return EEXIST;
      }
      FollowAttached(ram, at, Paths.Drop(names));
      var x := NewInode(d.value, Last(comps), File);
      assert x !in old(ram) && x in ram && ram[x].kind == File;
      FollowNew(old(at), names, x);
      return Ok;
    }

    /** ksys_openat without /proc; chrdev_open, alloc_file and the search for a descriptor may fail. */
    method Open(path: string, flags: Flags, ghost names: seq<Name>) returns (err: Errno)
      requires Valid() && IsPath(path, names) && Accounted(ram, files, stray)
      modifies this`ram, this`at, this`rank, this`files
      ensures Valid() && Accounted(ram, files, stray)
      ensures OpenStep(old(ram), old(at), old(files), path, names, flags, err, ram, at, files)
    {
      assert forall y | y in ram :: Kept(ram, y);
      var x := VfsLookup(path, names);
      if x.Some? {
        err := OpenHeld(x.value, flags, old(ram));
        return;
      }
      if !flags.create {
        return ENOENT;
      }
      err := OpenCreate(path, flags, names);
    }

    /** The O_CREAT branch of ksys_openat. */
    method OpenCreate(path: string, flags: Flags, ghost names: seq<Name>) returns (err: Errno)
      requires Valid() && IsPath(path, names) && Accounted(ram, files, stray)
      modifies this`ram, this`at, this`rank, this`files
      ensures Valid() && Accounted(ram, files, stray)
      ensures CreateStep(old(ram), old(at), old(files), names, flags, err, ram, at, files)
    {
      err := CreateFile(path, names);
      if err != Ok {
        return;
      }
      ghost var mid := ram;
      AccountedSame(old(ram), ram, files, stray);
      err := OpenNew(path, flags, names);
      assert MadeOne(old(ram), old(at), names, File, mid, at);
    }

    /** The second lookup of ksys_openat, for the file it has just created. */
    method OpenNew(path: string, flags: Flags, ghost names: seq<Name>) returns (err: Errno)
      requires Valid() && IsPath(path, names) && Accounted(ram, files, stray)
      requires Follow(at, ROOT, names).Some? && IsFile(ram, Follow(at, ROOT, names).value)
      modifies this`ram, this`rank, this`files
      ensures Valid() && Accounted(ram, files, stray)
      ensures HeldStep(old(ram), old(files), Follow(at, ROOT, names).value, flags, err, ram, files)
    {
      assert forall y | y in ram :: Kept(ram, y);
      var x := VfsLookup(path, names);
      err := OpenHeld(x.value, flags, old(ram));
    }

    /** The end of ksys_openat, with a reference on inode x; was is the state before it was taken. */
    method OpenHeld(x: Ino, flags: Flags, ghost was: Ram) returns (err: Errno)
      requires Valid() && x in was && ram == Counted(was, x, was[x].count + 1) && Accounted(was, files, stray)
      requires Kept(was, x)
      modifies this`ram, this`rank, this`files
      ensures Valid() && Accounted(ram, files, stray) && HeldStep(was, old(files), x, flags, err, ram, files)
    {
      var noFile: bool := *;
      if IsDir(ram, x) && flags.write {
        err := EISDIR;
      } else if !IsDir(ram, x) && flags.directory {
        err := ENOTDIR;
      } else if noFile {
        err := ENFILE;
      } else {
        files := files + [x];
        AccountedMore(was, ram, old(files), stray, x);
        return Ok;
      }
      PutAgain(x, was);
    }

    /** fput of the last reference to open file i. */
    method Close(i: nat) returns (err: Errno)
      requires Valid() && Accounted(ram, files, stray)
      modifies this`ram, this`rank, this`files
      ensures Valid() && Accounted(ram, files, stray) && err == if i < |old(files)| then Ok else EBADF
      ensures err != Ok ==> ram == old(ram) && files == old(files)
      ensures err == Ok ==> files == old(files)[..i] + old(files)[i + 1..] && PutOnce(old(ram), ram, old(files)[i])
    {
      if i >= |files| {
        return EBADF;
      }
      var x := files[i];
      AccountedHas(ram, files, stray, i);
      Iput(x);
      files := files[..i] + files[i + 1..];
      AccountedLess(old(ram), ram, old(files), stray, i);
      return Ok;
    }

    /** One system call of task t; what the user passes is any string. */
    method Syscall(t: nat, call: Call) returns (err: Errno, ghost from: seq<Name>)
      requires Valid() && Accounted(ram, files, stray) && t in cwd
      modifies this
      ensures Valid() && Accounted(ram, files, stray) && Step(old(Snapshot()), t, call, from, err, Snapshot())
    {
      if call.DoClose? {
        assert CwdIn(cwd, dents, t);
        from := PathTo(cwd[t]);
        err := Close(call.file);
        return;
      }
      var first;
      first, from := GetName(t, call.path);
      if call.DoSymlink? && |call.target| >= PATH_MAX {
        return ENAMETOOLONG, from;
      }
      if !first.Path? {
        return PathError(first), from;
      }
      UserPathMeaning(from, call.path);
      if !call.DoLink? && !call.DoRename? {
        err := OnePath(t, call, first.path, Split(first.path));
        return;
      }
      var second;
      ghost var again;
      second, again := GetName(t, call.newPath);
      LeadsUnique(dents, from, again, cwd[t]);
      if !second.Path? {
        return PathError(second), from;
      }
      UserPathMeaning(from, call.newPath);
      err := TwoPaths(call, first.path, second.path, Split(first.path), Split(second.path));
    }

    /** The calls with one path. */
    method OnePath(t: nat, call: Call, path: string, ghost names: seq<Name>) returns (err: Errno)
      requires Valid() && Accounted(ram, files, stray) && t in cwd && IsPath(path, names)
      requires !call.DoLink? && !call.DoRename? && !call.DoClose?
      modifies this
      ensures Valid() && Accounted(ram, files, stray)
      ensures PathStep(old(Snapshot()), t, call, path, names, err, Snapshot())
    {
      if call.DoOpen? {
        err := Open(path, call.flags, names);
      } else if call.DoChdir? {
        SameAtOnce(ram);
        err := Chdir(t, path, names);
        AccountedSame(old(ram), ram, files, stray);
      } else if call.DoUnlink? {
        err := UnlinkPath(t, call, path, names);
      } else if call.DoRmdir? {
        err := RmdirPath(t, call, path, names);
      } else {
        err := MakePath(t, call, path, names);
      }
    }

    method UnlinkPath(ghost t: nat, ghost call: Call, path: string, ghost names: seq<Name>) returns (err: Errno)
      requires Valid() && Accounted(ram, files, stray) && IsPath(path, names) && call.DoUnlink?
      modifies this`ram, this`at, this`rank, this`dents, this`cwd, this`stray
      ensures Valid() && Accounted(ram, files, stray)
      ensures PathStep(old(Snapshot()), t, call, path, names, err, Snapshot())
    {
      err := Unlink(path, names);
      if err == Ok {
        AccountedTaken(old(ram), ram, files, old(stray), Chase(old(ram), path, MAX_LINKS).value);
      } else {
        AccountedSame(old(ram), ram, files, stray);
      }
    }

    method RmdirPath(ghost t: nat, ghost call: Call, path: string, ghost names: seq<Name>) returns (err: Errno)
      requires Valid() && Accounted(ram, files, stray) && IsPath(path, names) && call.DoRmdir?
      modifies this`ram, this`at, this`rank, this`dents, this`cwd
      ensures Valid() && Accounted(ram, files, stray)
      ensures PathStep(old(Snapshot()), t, call, path, names, err, Snapshot())
    {
      err := Rmdir(path, names);
      AccountedSame(old(ram), ram, files, stray);
    }

    /** mkdir, mknod and symlink. */
    method MakePath(ghost t: nat, call: Call, path: string, ghost names: seq<Name>) returns (err: Errno)
      requires Valid() && Accounted(ram, files, stray) && IsPath(path, names)
      requires call.DoMkdir? || call.DoMknod? || call.DoSymlink?
      modifies this`ram, this`at, this`rank, this`dents
      ensures Valid() && Accounted(ram, files, stray)
      ensures PathStep(old(Snapshot()), t, call, path, names, err, Snapshot())
    {
      if call.DoSymlink? {
        err := Symlink(call.target, path, names);
      } else {
        err := Make(path, NewKind(call), names);
      }
      AccountedSame(old(ram), ram, files, stray);
    }

    /** The calls with two paths. */
    method TwoPaths(call: Call, path: string, newPath: string, ghost from: seq<Name>, ghost to: seq<Name>)
      returns (err: Errno)
      requires Valid() && Accounted(ram, files, stray) && IsPath(path, from) && IsPath(newPath, to)
      requires call.DoLink? || call.DoRename?
      modifies this`ram, this`at, this`rank, this`dents, this`cwd
      ensures Valid() && Accounted(ram, files, stray)
      ensures PairStep(old(Snapshot()), call, path, from, to, err, Snapshot())
    {
      if call.DoLink? {
        err := Link(path, newPath, from, to);
      } else {
        err := Rename(path, newPath, from, to);
      }
      AccountedSame(old(ram), ram, files, stray);
    }

    lemma Settles()
      requires Valid() && Accounted(ram, files, stray)
      ensures Settled(Snapshot())
    {
      LiveNow(ram, at, rank, files, stray);
    }

    method SettledCall(t: nat, call: Call) returns (err: Errno, ghost from: seq<Name>)
      requires Valid() && Accounted(ram, files, stray) && t in cwd
      modifies this
      ensures Valid() && Accounted(ram, files, stray) && cwd.Keys == old(cwd).Keys
      ensures Step(old(Snapshot()), t, call, from, err, Snapshot()) && Settled(Snapshot())
    {
      err, from := Syscall(t, call);
      Settles();
    }

    /**
     * Any run of system calls of any tasks, with any path strings: each call does what Step says. After
     * every call i_count is the number of open files and of stray references, and an inode exists exactly
     * while it is the root or has a name, an open file or a stray reference.
     */
    method Run(calls: seq<(nat, Call)>)
      returns (errs: seq<Errno>, ghost states: seq<Snap>, ghost homes: seq<seq<Name>>)
      requires Valid() && Accounted(ram, files, stray) && forall i | 0 <= i < |calls| :: calls[i].0 in cwd
      modifies this
      ensures Valid() && Accounted(ram, files, stray) && IsRun(states, calls, homes, errs)
      ensures states[0] == old(Snapshot()) && states[|calls|] == Snapshot()
      ensures forall i | 0 <= i < |states| :: Settled(states[i])
    {
      errs, states, homes := [], [Snapshot()], [];
      Settles();
      for i := 0 to |calls|
        invariant Valid() && Accounted(ram, files, stray) && cwd.Keys == old(cwd).Keys
        invariant IsRun(states, calls[..i], homes, errs)
        invariant states[0] == old(Snapshot()) && states[i] == Snapshot()
        invariant forall j | 0 <= j < |states| :: Settled(states[j])
      {
        var err, from := SettledCall(calls[i].0, calls[i].1);
        ghost var now := Snapshot();
        ExtendRun(states, calls[..i], homes, errs, calls[i], from, err, now);
        assert calls[..i + 1] == calls[..i] + [calls[i]];
        errs, states, homes := errs + [err], states + [now], homes + [from];
      }
      assert calls[..|calls|] == calls;
    }
  }

  datatype Flags = Flags(create: bool, write: bool, directory: bool)

  datatype Call =
    | DoMkdir(path: string)
    | DoMknod(path: string)
    | DoUnlink(path: string)
    | DoRmdir(path: string)
    | DoChdir(path: string)
    | DoSymlink(path: string, target: string)
    | DoOpen(path: string, flags: Flags)
    | DoLink(path: string, newPath: string)
    | DoRename(path: string, newPath: string)
    | DoClose(file: nat)

  // ---------- what a call does to the file system ----------

  datatype Snap = Snap(ram: Ram, at: Names, rank: Ranks, dents: Dents, cwd: map<nat, Id>, files: seq<Ino>,
                       stray: multiset<Ino>)

  /** The kind of inode a call makes. */
  function NewKind(call: Call): Kind {
    match call
    case DoMknod(_) => Chr
    case DoSymlink(_, target) => Lnk(target)
    case _ => Dir
  }

  function PathError(r: Resolved): Errno {
    if r.TooLong? then ENAMETOOLONG else if r.Invalid? then EINVAL else ENOENT
  }

  /** Exactly one name is new, and it names a new inode of the given kind. */
  ghost predicate MadeOne(was: Ram, names_: Names, names: seq<Name>, k: Kind, ram: Ram, at: Names) {
    names != [] && Follow(names_, ROOT, Paths.Drop(names)).Some?
    && SameKinds(was, ram)
    && exists x :: x !in was && x in ram && ram[x].kind == k && at == LinkedNames(names_, names, x)
  }

  /** The inodes there were are there, and of the same kind. */
  ghost predicate SameKinds(was: Ram, ram: Ram) {
    forall y {:trigger y in ram} {:trigger y in was} | y in was :: y in ram && ram[y].kind == was[y].kind
  }

  /** The name is gone, and no other. */
  ghost predicate Gone(was: Names, names: seq<Name>, at: Names) {
    names != [] && Follow(was, ROOT, Paths.Drop(names)).Some?
    && at == was - {Key(Follow(was, ROOT, Paths.Drop(names)).value, Last(names))}
  }

  /** The errors of ramfs_create. */
  function CreateResult(ram: Ram, at: Names, names: seq<Name>): Errno {
    if names == [] || Follow(at, ROOT, Paths.Drop(names)).None? then ENOENT
    else if !IsDir(ram, Follow(at, ROOT, Paths.Drop(names)).value) then ENOENT
    else if Follow(at, ROOT, names).Some? then EEXIST
    else Ok
  }

  function OpenCheck(dir: bool, flags: Flags): Errno {
    if dir && flags.write then EISDIR else if !dir && flags.directory then ENOTDIR else Ok
  }

  /** Opening inode x: one more open file, or one of the errors and nothing taken. */
  ghost predicate HeldStep(was: Ram, open: seq<Ino>, x: Ino, flags: Flags, err: Errno, ram: Ram, files: seq<Ino>) {
    && (err == ENFILE || err == OpenCheck(IsDir(was, x), flags))
    && (err == Ok ==> x in was && ram == Counted(was, x, was[x].count + 1) && files == open + [x])
    && (err != Ok ==> ram == was && files == open)
  }

  /** A new file under a name that is free, and then opened. */
  ghost predicate CreateStep(was: Ram, names_: Names, open: seq<Ino>, names: seq<Name>, flags: Flags, err: Errno,
                             ram: Ram, at: Names, files: seq<Ino>) {
    if CreateResult(was, names_, names) != Ok then
      err == CreateResult(was, names_, names) && at == names_ && ram == was && files == open
    else
      exists mid :: MadeOne(was, names_, names, File, mid, at) && Follow(at, ROOT, names).Some?
        && HeldStep(mid, open, Follow(at, ROOT, names).value, flags, err, ram, files)
  }

  /** open: what the path leads to, or a new file. */
  ghost predicate OpenStep(was: Ram, names_: Names, open: seq<Ino>, path: string, names: seq<Name>, flags: Flags,
                           err: Errno, ram: Ram, at: Names, files: seq<Ino>) {
    var x := Chase(was, path, MAX_LINKS);
    if x.Some? then at == names_ && HeldStep(was, open, x.value, flags, err, ram, files)
    else if !flags.create then err == ENOENT && at == names_ && ram == was && files == open
    else CreateStep(was, names_, open, names, flags, err, ram, at, files)
  }

  ghost predicate MakeStep(a: Snap, names: seq<Name>, k: Kind, want: Errno, err: Errno, b: Snap) {
    err == want && if err == Ok then MadeOne(a.ram, a.at, names, k, b.ram, b.at) else b.at == a.at
  }

  ghost predicate PathStep(a: Snap, t: nat, call: Call, path: string, names: seq<Name>, err: Errno, b: Snap)
    requires !call.DoLink? && !call.DoRename? && !call.DoClose?
  {
    && b.cwd.Keys == a.cwd.Keys && (!call.DoOpen? ==> b.files == a.files)
    && (!call.DoOpen? && !call.DoUnlink? ==> SameCounts(a.ram, b.ram))
    && b.stray == a.stray + (if Unlinks(call, err) then LedAt(a.ram, path) else multiset{})
    && match call
       case DoMkdir(_) => MakeStep(a, names, Dir, MakeResult(a.ram, a.at, names), err, b)
       case DoMknod(_) => MakeStep(a, names, Chr, MakeResult(a.ram, a.at, names), err, b)
       case DoSymlink(_, target) =>
         MakeStep(a, names, Lnk(target), SymlinkResult(a.ram, a.at, target, path, names), err, b)
       case DoUnlink(_) =>
         && err == UnlinkResult(a.ram, a.at, path, names) && UnlinkCounts(a.ram, a.stray, path, err, b.ram, b.stray)
         && if err == Ok then Gone(a.at, names, b.at) else b.at == a.at
       case DoRmdir(_) =>
         err == RmdirResult(a.ram, a.at, names) && if err == Ok then Gone(a.at, names, b.at) else b.at == a.at
       case DoChdir(_) =>
         && err == ChdirResult(a.ram, a.at, names) && b.at == a.at && b.ram == a.ram
         && (err != Ok ==> b.cwd == a.cwd)
         && (err == Ok ==> t in b.cwd && b.cwd == a.cwd[t := b.cwd[t]] && Leads(b.dents, names, b.cwd[t]))
       case DoOpen(_, flags) =>
         && OpenStep(a.ram, a.at, a.files, path, names, flags, err, b.ram, b.at, b.files)
         && b.cwd == a.cwd && b.dents == a.dents
  }

  ghost predicate PairStep(a: Snap, call: Call, path: string, from: seq<Name>, to: seq<Name>, err: Errno, b: Snap)
    requires call.DoLink? || call.DoRename?
  {
    && b.cwd.Keys == a.cwd.Keys && b.files == a.files && b.stray == a.stray && SameCounts(a.ram, b.ram)
    && if call.DoLink? then
         && err == LinkResult(a.ram, a.at, path, to)
         && b.at == if err == Ok then LinkedNames(a.at, to, Chase(a.ram, path, MAX_LINKS).value) else a.at
       else
         && err == RenameResult(a.ram, a.at, a.rank, from, to)
         && b.at == if err == Ok then RenamedNames(a.at, from, to) else a.at
  }

  /** One call of task t, whose current directory has the path home. */
  ghost predicate Step(a: Snap, t: nat, call: Call, home: seq<Name>, err: Errno, b: Snap) {
    && t in a.cwd && Leads(a.dents, home, a.cwd[t]) && AllPlain(home) && b.cwd.Keys == a.cwd.Keys
    && if call.DoClose? then
         && err == (if call.file < |a.files| then Ok else EBADF) && b.at == a.at && b.dents == a.dents && b.cwd == a.cwd
         && b.stray == a.stray
         && if err == Ok then
              b.files == a.files[..call.file] + a.files[call.file + 1..] && PutOnce(a.ram, b.ram, a.files[call.file])
            else b.ram == a.ram && b.files == a.files
       else if call.DoSymlink? && |call.target| >= PATH_MAX then err == ENAMETOOLONG && b == a
       else
         var first := UserPath(home, call.path);
         if !first.Path? then err == PathError(first) && b == a
         else if !call.DoLink? && !call.DoRename? then PathStep(a, t, call, first.path, Split(first.path), err, b)
         else
           var second := UserPath(home, call.newPath);
           if !second.Path? then err == PathError(second) && b == a
           else PairStep(a, call, first.path, Split(first.path), Split(second.path), err, b)
  }

  ghost predicate IsRun(states: seq<Snap>, calls: seq<(nat, Call)>, homes: seq<seq<Name>>, errs: seq<Errno>) {
    && |states| == |calls| + 1 && |homes| == |errs| == |calls|
    && forall i | 0 <= i < |calls| :: Step(states[i], calls[i].0, calls[i].1, homes[i], errs[i], states[i + 1])
  }

  lemma ExtendRun(states: seq<Snap>, calls: seq<(nat, Call)>, homes: seq<seq<Name>>, errs: seq<Errno>, c: (nat, Call),
                  home: seq<Name>, err: Errno, b: Snap)
    requires IsRun(states, calls, homes, errs) && Step(states[|calls|], c.0, c.1, home, err, b)
    ensures IsRun(states + [b], calls + [c], homes + [home], errs + [err])
  {
  }

  // ---------- references ----------

  /** i_count is the number of open files, as it is meant to be. */
  ghost predicate Balanced(ram: Ram, files: seq<Ino>) {
    forall y {:trigger Users(ram, y)} :: Users(ram, y) == multiset(files)[y]
  }

  /** i_count is the number of open files and of stray references. */
  ghost predicate Accounted(ram: Ram, files: seq<Ino>, stray: multiset<Ino>) {
    forall y {:trigger Users(ram, y)} :: Users(ram, y) == multiset(files)[y] + stray[y]
  }

  lemma AccountedSame(was: Ram, ram: Ram, files: seq<Ino>, stray: multiset<Ino>)
    requires Accounted(was, files, stray) && SameCounts(was, ram)
    ensures Accounted(ram, files, stray)
  {
    forall y ensures Users(ram, y) == multiset(files)[y] + stray[y] { assert Users(ram, y) == Users(was, y); }
  }

  lemma AccountedTaken(was: Ram, ram: Ram, files: seq<Ino>, stray: multiset<Ino>, x: Ino)
    requires Accounted(was, files, stray) && TookOne(was, ram, x)
    ensures Accounted(ram, files, stray + multiset{x})
  {
    forall y ensures Users(ram, y) == multiset(files)[y] + (stray + multiset{x})[y] {
      assert Users(was, y) == multiset(files)[y] + stray[y];
    }
  }

  lemma AccountedMore(was: Ram, ram: Ram, files: seq<Ino>, stray: multiset<Ino>, x: Ino)
    requires Accounted(was, files, stray) && x in was && ram == Counted(was, x, was[x].count + 1)
    ensures Accounted(ram, files + [x], stray)
  {
    forall y ensures Users(ram, y) == multiset(files + [x])[y] + stray[y] {
      assert Users(was, y) == multiset(files)[y] + stray[y];
    }
  }

  lemma AccountedHas(ram: Ram, files: seq<Ino>, stray: multiset<Ino>, i: nat)
    requires Accounted(ram, files, stray) && i < |files|
    ensures files[i] in ram && ram[files[i]].count > 0
  {
    assert files[i] in multiset(files) && Users(ram, files[i]) == multiset(files)[files[i]] + stray[files[i]];
  }

  lemma AccountedLess(was: Ram, ram: Ram, files: seq<Ino>, stray: multiset<Ino>, i: nat)
    requires Accounted(was, files, stray) && i < |files| && PutOnce(was, ram, files[i])
    ensures Accounted(ram, files[..i] + files[i + 1..], stray)
  {
    assert files == files[..i] + [files[i]] + files[i + 1..];
    assert multiset(files) == multiset(files[..i] + files[i + 1..]) + multiset{files[i]};
    forall y ensures Users(ram, y) == multiset(files[..i] + files[i + 1..])[y] + stray[y] {
      assert Users(was, y) == multiset(files)[y] + stray[y];
    }
  }

  /** An inode exists exactly while it is the root, has a name, is open or has a stray reference. */
  ghost predicate OnlyLive(s: Snap) {
    forall x {:trigger x in s.ram} ::
      x in s.ram <==> x == ROOT || NamesOf(s.at, x) != {} || x in s.files || x in s.stray
  }

  /** What holds after every call. */
  ghost predicate Settled(s: Snap) {
    Accounted(s.ram, s.files, s.stray) && OnlyLive(s)
  }

  lemma LiveNow(ram: Ram, at: Names, rank: Ranks, files: seq<Ino>, stray: multiset<Ino>)
    requires TreeOk(ram, at, rank, {}) && Accounted(ram, files, stray)
    ensures forall x {:trigger x in ram} ::
              x in ram <==> x == ROOT || NamesOf(at, x) != {} || x in files || x in stray
  {
    forall x ensures x in ram <==> x == ROOT || NamesOf(at, x) != {} || x in files || x in stray {
      assert Users(ram, x) == multiset(files)[x] + stray[x];
      if x in ram {
        assert NodeOk(ram, at, x) && Kept(ram, x);
      }
      if k :| k in NamesOf(at, x) {
        assert KeyOk(ram, at, rank, k);
      }
    }
  }

  // ---------- what unlink leaves behind ----------

  /** A call that unlinked a name. */
  ghost predicate Unlinks(call: Call, err: Errno) {
    call.DoUnlink? && err == Ok
  }

  /** The inode a successful unlink led to, through any symbolic links. */
  ghost function Led(a: Snap, call: Call, home: seq<Name>, err: Errno): multiset<Ino> {
    if Unlinks(call, err) && UserPath(home, call.path).Path? then LedAt(a.ram, UserPath(home, call.path).path)
    else multiset{}
  }

  ghost function LedAt(ram: Ram, path: string): multiset<Ino> {
    var x := Chase(ram, path, MAX_LINKS);
    if x.Some? then multiset{x.value} else multiset{}
  }

  /** All of them over a run. */
  ghost function LedBy(states: seq<Snap>, calls: seq<(nat, Call)>, homes: seq<seq<Name>>, errs: seq<Errno>)
    : multiset<Ino>
    requires |states| == |calls| + 1 && |homes| == |errs| == |calls|
  {
    if calls == [] then multiset{}
    else
      var n := |calls| - 1;
      LedBy(states[..n + 1], calls[..n], homes[..n], errs[..n]) + Led(states[n], calls[n].1, homes[n], errs[n])
  }

  lemma RunPrefix(states: seq<Snap>, calls: seq<(nat, Call)>, homes: seq<seq<Name>>, errs: seq<Errno>, n: nat)
    requires IsRun(states, calls, homes, errs) && n <= |calls|
    ensures IsRun(states[..n + 1], calls[..n], homes[..n], errs[..n])
  {
  }

  lemma StrayStep(a: Snap, t: nat, call: Call, home: seq<Name>, err: Errno, b: Snap)
    requires Step(a, t, call, home, err, b)
    ensures b.stray == a.stray + Led(a, call, home, err)
    ensures Unlinks(call, err) <==> Led(a, call, home, err) != multiset{}
  {
  }

  /** The stray references are those of the successful unlinks, one for each. */
  lemma {:induction false} StrayExactly(states: seq<Snap>, calls: seq<(nat, Call)>, homes: seq<seq<Name>>,
                                        errs: seq<Errno>)
    requires IsRun(states, calls, homes, errs)
    ensures states[|calls|].stray == states[0].stray + LedBy(states, calls, homes, errs)
    decreases |calls|
  {
    if calls == [] {
    } else {
      var n := |calls| - 1;
      RunPrefix(states, calls, homes, errs, n);
      StrayExactly(states[..n + 1], calls[..n], homes[..n], errs[..n]);
      StrayStep(states[n], calls[n].0, calls[n].1, homes[n], errs[n], states[n + 1]);
    }
  }

  /** No unlink succeeded. */
  ghost predicate NoUnlink(calls: seq<(nat, Call)>, errs: seq<Errno>)
    requires |errs| == |calls|
  {
    forall i | 0 <= i < |calls| :: !Unlinks(calls[i].1, errs[i])
  }

  lemma NoUnlinkLast(calls: seq<(nat, Call)>, errs: seq<Errno>)
    requires |errs| == |calls| > 0
    ensures var n := |calls| - 1;
            NoUnlink(calls, errs) <==> NoUnlink(calls[..n], errs[..n]) && !Unlinks(calls[n].1, errs[n])
  {
    var n := |calls| - 1;
    if NoUnlink(calls[..n], errs[..n]) && !Unlinks(calls[n].1, errs[n]) {
      forall i | 0 <= i < |calls| ensures !Unlinks(calls[i].1, errs[i]) {
        if i < n {
          assert calls[..n][i] == calls[i] && errs[..n][i] == errs[i];
        }
      }
    }
  }

  ghost predicate LedRight(a: Snap, call: Call, home: seq<Name>, err: Errno) {
    Unlinks(call, err) <==> Led(a, call, home, err) != multiset{}
  }

  lemma {:induction false} LedByNone(states: seq<Snap>, calls: seq<(nat, Call)>, homes: seq<seq<Name>>,
                                     errs: seq<Errno>)
    requires |states| == |calls| + 1 && |homes| == |errs| == |calls|
    requires forall i | 0 <= i < |calls| :: LedRight(states[i], calls[i].1, homes[i], errs[i])
    ensures LedBy(states, calls, homes, errs) == multiset{} <==> NoUnlink(calls, errs)
    decreases |calls|
  {
    if calls == [] {
    } else {
      var n := |calls| - 1;
      LedByNone(states[..n + 1], calls[..n], homes[..n], errs[..n]);
      SumEmpty(LedBy(states[..n + 1], calls[..n], homes[..n], errs[..n]),
               Led(states[n], calls[n].1, homes[n], errs[n]));
      NoUnlinkLast(calls, errs);
      assert LedRight(states[n], calls[n].1, homes[n], errs[n]);
    }
  }

  lemma SumEmpty(a: multiset<Ino>, b: multiset<Ino>)
    ensures a + b == multiset{} <==> a == multiset{} && b == multiset{}
  {
    if a != multiset{} {
      var x :| x in a;
      assert x in a + b;
    }
    if b != multiset{} {
      var x :| x in b;
      assert x in a + b;
    }
  }

  /** So i_count is the number of open files after a run exactly when no unlink in it succeeded. */
  lemma BalancedExactly(states: seq<Snap>, calls: seq<(nat, Call)>, homes: seq<seq<Name>>, errs: seq<Errno>)
    requires IsRun(states, calls, homes, errs) && states[0].stray == multiset{}
    requires Settled(states[|calls|])
    ensures Balanced(states[|calls|].ram, states[|calls|].files) <==> NoUnlink(calls, errs)
  {
    var b, led := states[|calls|], LedBy(states, calls, homes, errs);
    StrayExactly(states, calls, homes, errs);
    forall i | 0 <= i < |calls| ensures LedRight(states[i], calls[i].1, homes[i], errs[i]) {
      StrayStep(states[i], calls[i].0, calls[i].1, homes[i], errs[i], states[i + 1]);
    }
    LedByNone(states, calls, homes, errs);
    assert b.stray == led;
    if led != multiset{} {
      var x :| x in led;
      assert Users(b.ram, x) == multiset(b.files)[x] + b.stray[x];
    }
  }

  // ---------- at an input ----------

  lemma RootPath(n: Name)
    requires Plain(n) && |n| < PATH_MAX - 1
    ensures IsPath("/" + n, [n])
  {
    assert Join([n]) == "/" + n + Join([n][1..]);
  }

  /** The only name there is, in the root directory. */
  lemma Alone(at: Names, n: Name, x: Ino)
    requires at == map[Key(ROOT, n) := x]
    ensures Follow(at, ROOT, [n]) == Some(x) && NamesOf(at, x) == {Key(ROOT, n)}
  {
    assert [n][1..] == [];
  }

  /** A file is created, closed and unlinked: its inode stays, without a name and without an open file. */
  method UnlinkLeaks() returns (fs: FileSystem, x: Ino)
    ensures fresh(fs) && fs.Valid() && fs.at == map[] && fs.files == []
    ensures x != ROOT && x in fs.ram && fs.ram[x].nlink == 0 && fs.ram[x].count == 1
  {
    fs, x := OneFile("a");
    ChaseFollows(fs.ram, fs.at, fs.rank, "/a", ["a"], MAX_LINKS);
    assert Follow(fs.at, ROOT, Paths.Drop(["a"])) == Some(ROOT);
    var err := fs.Unlink("/a", ["a"]);
    assert Users(fs.ram, x) == 1;
    assert NodeOk(fs.ram, fs.at, x) && NamesOf(fs.at, x) == {};
  }

  /** open with O_CREAT in an empty file system, and close. */
  method OneFile(n: Name) returns (fs: FileSystem, x: Ino)
    requires Plain(n) && |n| < PATH_MAX - 1
    ensures fresh(fs) && fs.Valid() && Accounted(fs.ram, fs.files, fs.stray) && fs.files == [] && fs.stray == multiset{}
    ensures IsPath("/" + n, [n]) && fs.at == map[Key(ROOT, n) := x] && Follow(fs.at, ROOT, [n]) == Some(x)
    ensures x != ROOT && IsFile(fs.ram, x) && fs.ram[x].count == 0
  {
    fs, x := Opened(n);
    assert NodeOk(fs.ram, fs.at, x);
    if fs.files != [] {
      var _ := fs.Close(0);
    }
    assert Users(fs.ram, x) == 0;
  }

  method Opened(n: Name) returns (fs: FileSystem, x: Ino)
    requires Plain(n) && |n| < PATH_MAX - 1
    ensures fresh(fs) && fs.Valid() && Accounted(fs.ram, fs.files, fs.stray) && fs.stray == multiset{}
    ensures fs.files == [] || fs.files == [x]
    ensures IsPath("/" + n, [n]) && fs.at == map[Key(ROOT, n) := x] && Follow(fs.at, ROOT, [n]) == Some(x)
    ensures x != ROOT && IsFile(fs.ram, x) && NamesOf(fs.at, x) == {Key(ROOT, n)}
  {
    fs := new FileSystem({0});
    RootPath(n);
    ChaseFollows(fs.ram, fs.at, fs.rank, "/" + n, [n], MAX_LINKS);
    assert Follow(fs.at, ROOT, Paths.Drop([n])) == Some(ROOT) && Last([n]) == n;
    var _ := fs.Open("/" + n, Flags(true, true, false), [n]);
    var y := fs.RamLookup("/" + n);
    PathSplits("/" + n, [n]);
    WalkFollows(fs.ram, fs.at, ROOT, [n]);
    x := y.value;
    Alone(fs.at, n, x);
    assert KeyOk(fs.ram, fs.at, fs.rank, Key(ROOT, n));
  }

  /** A link whose target is the path of something that is no link itself. */
  lemma ChaseLink(ram: Ram, at: Names, rank: Ranks, path: string, names: seq<Name>, target: string, to: seq<Name>,
                  depth: nat)
    requires ListsOk(ram, at) && TreeOk(ram, at, rank, {}) && IsPath(path, names) && IsPath(target, to) && depth >= 2
    requires var l := Follow(at, ROOT, names); l.Some? && l.value in ram && ram[l.value].kind == Lnk(target)
    ensures var x := Follow(at, ROOT, to);
            && (x.None? ==> Chase(ram, path, depth) == None)
            && (x.Some? ==> x.value in ram && (!ram[x.value].kind.Lnk? ==> Chase(ram, path, depth) == x))
  {
    PathSplits(path, names);
    PathSplits(target, to);
    WalkFollows(ram, at, ROOT, names);
    assert Redirect(path, target) == Some(target);
    ChaseFollows(ram, at, rank, target, to, depth - 1);
  }

  /** unlink of a link asks about its target: nothing there is ENOENT, a directory EISDIR, and the link stays. */
  lemma UnlinkOfLink(ram: Ram, at: Names, rank: Ranks, path: string, names: seq<Name>, target: string, to: seq<Name>)
    requires ListsOk(ram, at) && TreeOk(ram, at, rank, {}) && IsPath(path, names) && IsPath(target, to)
    requires var l := Follow(at, ROOT, names); l.Some? && l.value in ram && ram[l.value].kind == Lnk(target)
    requires var x := Follow(at, ROOT, to); x.Some? ==> x.value in ram && !ram[x.value].kind.Lnk?
    ensures UnlinkResult(ram, at, path, names) ==
              var x := Follow(at, ROOT, to);
              if x.None? then ENOENT else if IsDir(ram, x.value) then EISDIR else Ok
  {
    ChaseLink(ram, at, rank, path, names, target, to, MAX_LINKS);
    if names != [] {
      FollowLast(at, names);
    }
  }

  /** A dangling link in an empty file system cannot be unlinked. */
  method DanglingStays() returns (fs: FileSystem, err: Errno)
    ensures fresh(fs) && fs.Valid() && err == ENOENT && Follow(fs.at, ROOT, ["l"]).Some?
  {
    fs := new FileSystem({0});
    RootPath("l");
    RootPath("a");
    LinkHere(fs, "l", "/a");
    UnlinkOfLink(fs.ram, fs.at, fs.rank, "/l", ["l"], "/a", ["a"]);
    err := fs.Unlink("/l", ["l"]);
  }

  /** Nor can a link to a directory. */
  method LinkToDirectoryStays() returns (fs: FileSystem, err: Errno)
    ensures fresh(fs) && fs.Valid() && err == EISDIR && Follow(fs.at, ROOT, ["l"]).Some?
  {
    fs := new FileSystem({0});
    RootPath("l");
    RootPath("d");
    err := MakeHere(fs, "d");
    LinkHere(fs, "l", "/d");
    FollowLast(fs.at, ["d"]);
    UnlinkOfLink(fs.ram, fs.at, fs.rank, "/l", ["l"], "/d", ["d"]);
    err := fs.Unlink("/l", ["l"]);
  }

  /** unlink of a link to a file leaves its reference with the file. */
  method TargetKeepsReference() returns (fs: FileSystem, x: Ino)
    ensures fresh(fs) && fs.Valid() && fs.files == [] && Follow(fs.at, ROOT, ["l"]).None?
    ensures Follow(fs.at, ROOT, ["a"]) == Some(x) && x in fs.ram && fs.ram[x].count == 1
  {
    fs, x := OneFile("a");
    RootPath("l");
    assert Users(fs.ram, x) == 0;
    LinkHere(fs, "l", "/a");
    FollowLast(fs.at, ["a"]);
    assert Users(fs.ram, x) == 0;
    UnlinkOfLink(fs.ram, fs.at, fs.rank, "/l", ["l"], "/a", ["a"]);
    ChaseLink(fs.ram, fs.at, fs.rank, "/l", ["l"], "/a", ["a"], MAX_LINKS);
    var err := fs.Unlink("/l", ["l"]);
    assert Users(fs.ram, x) == 1;
    FollowLast(fs.at, ["a"]);
    FollowLast(fs.at, ["l"]);
  }

  /** mkdir in the root directory of an empty file system. */
  method MakeHere(fs: FileSystem, n: Name) returns (err: Errno)
    requires fs.Valid() && Accounted(fs.ram, fs.files, fs.stray) && IsPath("/" + n, [n]) && fs.at == map[]
    modifies fs`ram, fs`at, fs`rank, fs`dents
    ensures fs.Valid() && Accounted(fs.ram, fs.files, fs.stray) && fs.at.Keys == {Key(ROOT, n)}
    ensures IsDir(fs.ram, fs.at[Key(ROOT, n)])
  {
    assert Follow(fs.at, ROOT, Paths.Drop([n])) == Some(ROOT) && Last([n]) == n;
    FollowLast(fs.at, [n]);
    err := fs.Make("/" + n, Dir, [n]);
    AccountedSame(old(fs.ram), fs.ram, fs.files, fs.stray);
  }

  /** symlink of a new name in the root directory. */
  method LinkHere(fs: FileSystem, n: Name, target: string)
    requires fs.Valid() && Accounted(fs.ram, fs.files, fs.stray) && IsPath("/" + n, [n]) && |target| < PATH_MAX
    requires Key(ROOT, n) !in fs.at
    modifies fs`ram, fs`at, fs`rank, fs`dents
    ensures fs.Valid() && Accounted(fs.ram, fs.files, fs.stray) && SameCounts(old(fs.ram), fs.ram)
    ensures SameKinds(old(fs.ram), fs.ram)
    ensures Key(ROOT, n) in fs.at && fs.at == old(fs.at)[Key(ROOT, n) := fs.at[Key(ROOT, n)]]
    ensures Follow(fs.at, ROOT, [n]) == Some(fs.at[Key(ROOT, n)]) && fs.at[Key(ROOT, n)] in fs.ram
    ensures fs.ram[fs.at[Key(ROOT, n)]].kind == Lnk(target)
  {
    ChaseFollows(fs.ram, fs.at, fs.rank, "/" + n, [n], MAX_LINKS);
    assert Follow(fs.at, ROOT, Paths.Drop([n])) == Some(ROOT) && Last([n]) == n;
    FollowLast(fs.at, [n]);
    var err := fs.Symlink(target, "/" + n, [n]);
    FollowLast(fs.at, [n]);
    AccountedSame(old(fs.ram), fs.ram, fs.files, fs.stray);
  }

  predicate IsFile(ram: Ram, x: Ino) {
    x in ram && ram[x].kind == File
  }

  /** A new name is found under its path. */
  lemma FollowNew(at: Names, names: seq<Name>, x: Ino)
    requires names != [] && Follow(at, ROOT, Paths.Drop(names)).Some? && Follow(at, ROOT, names).None?
    ensures Follow(LinkedNames(at, names, x), ROOT, names) == Some(x)
  {
    var more := LinkedNames(at, names, x);
    FollowLast(at, names);
    FollowGrows(at, more, ROOT, Paths.Drop(names));
    FollowLast(more, names);
  }

  lemma {:induction false} FollowGrows(at: Names, more: Names, x: Ino, comps: seq<Name>)
    requires Follow(at, x, comps).Some? && forall k | k in at :: k in more && more[k] == at[k]
    ensures Follow(more, x, comps) == Follow(at, x, comps)
    decreases |comps|
  {
    if comps != [] {
      FollowGrows(at, more, at[Key(x, comps[0])], comps[1..]);
    }
  }

  lemma FollowAttached(ram: Ram, at: Names, names: seq<Name>)
    requires Follow(at, ROOT, names).Some? && IsDir(ram, Follow(at, ROOT, names).value)
    ensures Attached(ram, at, Follow(at, ROOT, names).value)
  {
    if names != [] {
      FollowLast(at, names);
      var k := Key(Follow(at, ROOT, Paths.Drop(names)).value, Last(names));
      assert k in NamesOf(at, at[k]);
    }
  }

  /** A dentry has one path. */
  lemma {:induction false} LeadsUnique(ds: Dents, a: seq<Name>, b: seq<Name>, d: Id)
    requires Leads(ds, a, d) && Leads(ds, b, d)
    ensures a == b
    decreases |a|
  {
    if a == [] {
      assert b == [];
    } else {
      LeadsUnique(ds, a[..|a| - 1], b[..|b| - 1], ds[d].parent);
      assert a == a[..|a| - 1] + [a[|a| - 1]] && b == b[..|b| - 1] + [b[|b| - 1]];
    }
  }

  function ChdirResult(ram: Ram, at: Names, names: seq<Name>): Errno {
    if Follow(at, ROOT, names).None? then ENOENT
    else if !IsDir(ram, Follow(at, ROOT, names).value) then ENOTDIR
    else Ok
  }

  lemma FollowNone(at: Names, names: seq<Name>)
    ensures names != [] && Follow(at, ROOT, Paths.Drop(names)).None? ==> Follow(at, ROOT, names).None?
  {
    if names != [] {
      FollowLast(at, names);
    }
  }

  /** The outcome of rename: all errors in the order they are found. */
  ghost function RenameResult(ram: Ram, at: Names, rank: Ranks, from: seq<Name>, to: seq<Name>): Errno {
    if from == [] || to == [] || Follow(at, ROOT, from).None? || Follow(at, ROOT, Paths.Drop(to)).None? then ENOENT
    else if Follow(at, ROOT, to) == Follow(at, ROOT, from) then Ok
    else MoveResult(ram, at, rank, Follow(at, ROOT, from).value, Key(Follow(at, ROOT, Paths.Drop(to)).value, Last(to)))
  }

  /** The names after a rename: two names of one file both stay; else the new name replaces the old. */
  ghost function RenamedNames(at: Names, from: seq<Name>, to: seq<Name>): Names
    requires from != [] && to != []
  {
    var d, e := Follow(at, ROOT, Paths.Drop(from)), Follow(at, ROOT, Paths.Drop(to));
    if d.None? || e.None? || Key(d.value, Last(from)) !in at || Follow(at, ROOT, to) == Follow(at, ROOT, from) then at
    else MovedNames(at, Key(d.value, Last(from)), Key(e.value, Last(to)))
  }

  /** Once the target of a rename is gone, the entry can take its name. */
  lemma StillMovable(ram: Ram, at: Names, rank: Ranks, r: Ram, h: Ranks, k: Key, l: Key)
    requires TreeOk(ram, at, rank, {}) && k in at && l in at && at[k] != at[l] && EmptyDir(at, at[l])
    requires Attached(ram, at, l.dir) && (IsDir(ram, at[k]) ==> !Under(ram, rank, at[k], l.dir))
    requires forall z :: z in ram && z != at[l] ==> z in r && r[z].kind == ram[z].kind && r[z].parent == ram[z].parent
    requires forall z :: z in ram && z != at[l] ==> z in h && h[z] == rank[z]
    ensures MayMove(r, at - {l}, h, k, l)
  {
    OneName(ram, at, rank, {}, l);
    OneName(ram, at, rank, {}, k);
    UnderSame(ram, at, rank, r, h, at[l], at[k], l.dir);
    NamesDrop(at, l, l.dir);
    assert l !in NamesOf(at, l.dir);
  }

  /** The errors of vfs_rename of inode src to the name l, in the order they are found. */
  ghost function MoveResult(ram: Ram, at: Names, rank: Ranks, src: Ino, l: Key): Errno {
    if !IsDir(ram, l.dir) then ENOTDIR
    else if IsDir(ram, src) && Under(ram, rank, src, l.dir) then EINVAL
    else if l !in at then Ok
    else if IsDir(ram, src) && !IsDir(ram, at[l]) then ENOTDIR
    else if IsDir(ram, src) then (if EmptyDir(at, at[l]) then Ok else ENOTEMPTY)
    else if IsDir(ram, at[l]) then EISDIR
    else Ok
  }

  /** Removing a name without children changes nothing above other directories. */
  lemma {:induction false} UnderSame(ram: Ram, at: Names, rank: Ranks, r: Ram, h: Ranks, gone: Ino, x: Ino, y: Ino)
    requires TreeOk(ram, at, rank, {}) && Attached(ram, at, y) && EmptyDir(at, gone) && y != gone && gone != ROOT
    requires forall z :: z in ram && z != gone ==> z in r && r[z].kind == ram[z].kind && r[z].parent == ram[z].parent
    requires forall z :: z in ram && z != gone ==> z in h && h[z] == rank[z]
    ensures Under(r, h, x, y) == Under(ram, rank, x, y)
    decreases rank[y]
  {
    if y != ROOT {
      var k :| k in NamesOf(at, y);
      assert KeyOk(ram, at, rank, k);
      UnderSame(ram, at, rank, r, h, gone, x, k.dir);
    }
  }

  /** The errors of rmdir, in the order they are found. */
  ghost function RmdirResult(ram: Ram, at: Names, names: seq<Name>): Errno {
    var x := Follow(at, ROOT, names);
    if names == [] || x.None? then ENOENT
    else if !IsDir(ram, x.value) then ENOTDIR
    else if !EmptyDir(at, x.value) then ENOTEMPTY
    else Ok
  }

  /** Only directories have names in them. */
  lemma FileIsEmpty(ram: Ram, at: Names, x: Ino)
    requires ListsOk(ram, at) && !IsDir(ram, x)
    ensures EmptyDir(at, x)
  {
  }

  /** Names lead from inodes to inodes. */
  lemma {:induction false} FollowStays(ram: Ram, at: Names, rank: Ranks, x: Ino, comps: seq<Name>)
    requires TreeOk(ram, at, rank, {}) && x in ram
    ensures Follow(at, x, comps).Some? ==> Follow(at, x, comps).value in ram
    decreases |comps|
  {
    if comps != [] && Key(x, comps[0]) in at {
      assert KeyOk(ram, at, rank, Key(x, comps[0]));
      FollowStays(ram, at, rank, at[Key(x, comps[0])], comps[1..]);
    }
  }

  function Last(names: seq<Name>): Name
    requires names != []
  {
    names[|names| - 1]
  }

  /** The errors of mkdir and mknod, in the order they are found. */
  function MakeResult(ram: Ram, at: Names, names: seq<Name>): Errno {
    if names == [] || Follow(at, ROOT, Paths.Drop(names)).None? then ENOENT
    else if Follow(at, ROOT, names).Some? then EEXIST
    else if !IsDir(ram, Follow(at, ROOT, Paths.Drop(names)).value) then ENOTDIR
    else Ok
  }

  /** The errors of unlink: it asks what the path leads to, through links, but removes the name itself. */
  function UnlinkResult(ram: Ram, at: Names, path: string, names: seq<Name>): Errno {
    if names == [] || Follow(at, ROOT, Paths.Drop(names)).None? then ENOENT
    else
      var x := Chase(ram, path, MAX_LINKS);
      if x.None? then ENOENT else if IsDir(ram, x.value) then EISDIR else Ok
  }

  /** The errors of link and symlink for the new name. */
  function NewNameResult(ram: Ram, at: Names, names: seq<Name>): Errno {
    if names == [] then EEXIST else MakeResult(ram, at, names)
  }

  /** What a path names cannot be made. */
  lemma Taken(ram: Ram, at: Names, names: seq<Name>)
    ensures Follow(at, ROOT, names).Some? ==> NewNameResult(ram, at, names) == EEXIST
  {
    if names != [] {
      FollowLast(at, names);
    }
  }

  /** The checks of link and symlink on the new name, in their order; long is set for a target that does not fit. */
  function SlotResult(ram: Ram, at: Names, names: seq<Name>, long: bool): Errno {
    if names == [] || Follow(at, ROOT, Paths.Drop(names)).None? then ENOENT
    else if !IsDir(ram, Follow(at, ROOT, Paths.Drop(names)).value) then ENOTDIR
    else if long then ENAMETOOLONG
    else if Follow(at, ROOT, names).Some? then EEXIST
    else Ok
  }

  lemma SlotIsMake(ram: Ram, at: Names, names: seq<Name>)
    requires ListsOk(ram, at)
    ensures SlotResult(ram, at, names, false) == MakeResult(ram, at, names)
  {
    if names != [] {
      FollowLast(at, names);
    }
  }

  /** The errors of symlink: what the path leads to already, then the checks on the name. */
  function SymlinkResult(ram: Ram, at: Names, target: string, path: string, names: seq<Name>): Errno {
    if Chase(ram, path, MAX_LINKS).Some? then EEXIST else SlotResult(ram, at, names, |target| >= PATH_MAX)
  }

  lemma NewNameCounts(ram: Ram, x: Ino, c: nat, at: Names, names: seq<Name>)
    requires x in ram
    ensures NewNameResult(Counted(ram, x, c), at, names) == NewNameResult(ram, at, names)
  {
  }

  function LinkResult(ram: Ram, at: Names, oldPath: string, to: seq<Name>): Errno {
    var x := Chase(ram, oldPath, MAX_LINKS);
    if x.None? then ENOENT else if IsDir(ram, x.value) then EPERM else NewNameResult(ram, at, to)
  }

  /** x under one more name. */
  function LinkedNames(at: Names, to: seq<Name>, x: Ino): Names {
    if to == [] || Follow(at, ROOT, Paths.Drop(to)).None? then at
    else at[Key(Follow(at, ROOT, Paths.Drop(to)).value, Last(to)) := x]
  }

  /** What a string of the user means to a task whose current directory has the path from. */
  function UserPath(from: seq<Name>, raw: string): Resolved {
    if |raw| >= PATH_MAX then TooLong
    else if raw == "" then NotFound
    else if raw[0] != '/' && |Show(from)| >= PATH_MAX then TooLong
    else ResolveSpec(from, raw)
  }

  /**
   * It is the lexical fold of its components. It is too long exactly when the string or some directory on the
   * way does not fit, or when the string is relative to the root and squeezed.
   */
  lemma UserPathMeaning(from: seq<Name>, raw: string)
    requires AllPlain(from)
    ensures var r := UserPath(from, raw); var start := Start(from, raw);
            && (r.Path? ==> IsPath(r.path, Fold(start, Split(raw))) && IsPath(r.path, Split(r.path)))
            && (r.TooLong? <==> |raw| >= PATH_MAX || (raw != "" && Overlong(start, raw)))
            && (r.NotFound? <==> raw == "") && !r.Invalid?
  {
    var r, start := UserPath(from, raw), Start(from, raw);
    if 0 < |raw| < PATH_MAX {
      SplitGood(raw);
      if |Show(start)| < PATH_MAX {
        assert r == ResolveSpec(start, raw);
        LimitedIff(start, Split(raw));
        RootedIff(Split(raw));
        if start != [] {
          RootedOnlyAtRoot(start, Split(raw));
        }
        if r.Path? {
          ResolveCanonical(start, raw, start);
          PathSplits(r.path, Fold(start, Split(raw)));
        }
      } else {
        assert Split(raw)[..0] == [] && Fold(start, Split(raw)[..0]) == start;
      }
    }
  }

  /** Some directory on the way does not fit, or the slash of a base "/" makes the difference. */
  ghost predicate Overlong(start: seq<Name>, raw: string)
    requires raw != ""
  {
    !AllFit(start, Split(raw)) || (start == [] && raw[0] != '/' && Squeezed(Split(raw)))
  }

  /** Where the components of a path start. */
  function Start(from: seq<Name>, raw: string): seq<Name> {
    if raw != "" && raw[0] == '/' then [] else from
  }

  /** The canonical path with these components, as path_resolve produces it. */
  predicate IsPath(path: string, names: seq<Name>) {
    AllPlain(names) && path == Show(names) && |path| < PATH_MAX
  }

  lemma PathSplits(path: string, names: seq<Name>)
    requires AllPlain(names) && path == Show(names)
    ensures Canonical(path) && Split(path) == names
  {
    SplitShow(names);
  }

  lemma FollowLast(at: Names, names: seq<Name>)
    requires names != []
    ensures Follow(at, ROOT, names) == if Follow(at, ROOT, Paths.Drop(names)).Some?
      then Get(at, Key(Follow(at, ROOT, Paths.Drop(names)).value, Last(names))) else None
  {
    assert names == Paths.Drop(names) + [Last(names)];
    FollowSnoc(at, ROOT, Paths.Drop(names), Last(names));
  }

  /** An absolute path without dot components. */
  predicate Canonical(path: string) {
    path != "" && path[0] == '/' && AllPlain(Split(path))
  }

  /** kmalloc of something that is not in use. */
  method Fresh(used: set<nat>) returns (x: nat)
    ensures x !in used
  {
    x := 0;
    var rest := used;
    while x in rest
      invariant rest <= used && forall y :: y in used && y >= x ==> y in rest
      decreases |rest|
    {
      rest := rest - {x};
      x := x + 1;
    }
  }
}
