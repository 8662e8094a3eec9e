/**
 * The inodes of fs/ramfs.c and fs/inode.c: directory lists, link counts,
 * parent pointers, and what each change to them keeps.
 */
module Ramfs {
  import opened Basics
  import opened Paths

  type Ino = nat

  const ROOT: Ino := 0

  datatype Kind = Dir | File | Chr | Lnk(target: string)

  datatype Entry = Entry(name: Name, ino: Ino)

  /** A struct ramfs_inode: children and parent matter for directories only. */
  datatype Node = Node(kind: Kind, kids: seq<Entry>, parent: Ino, nlink: nat, count: nat)

  type Ram = map<Ino, Node>

  /** A name in a directory. */
  datatype Key = Key(dir: Ino, name: Name)

  // ---------- directory lists ----------

  /** ramfs_find_child on the list of a directory. */
  function Find(kids: seq<Entry>, n: Name): Option<Ino> {
    if kids == [] then None else if kids[0].name == n then Some(kids[0].ino) else Find(kids[1..], n)
  }

  ghost predicate Unique(kids: seq<Entry>) {
    forall i, j :: 0 <= i < j < |kids| ==> kids[i].name != kids[j].name
  }

  /** ramfs_remove_child: unlink the first entry of that name. */
  function Remove(kids: seq<Entry>, n: Name): seq<Entry> {
    if kids == [] then [] else if kids[0].name == n then kids[1..] else [kids[0]] + Remove(kids[1..], n)
  }

  /** ramfs_set_name on the first entry of that name. */
  function Renamed(kids: seq<Entry>, n: Name, m: Name): seq<Entry> {
    if kids == [] then []
    else if kids[0].name == n then [Entry(m, kids[0].ino)] + kids[1..]
    else [kids[0]] + Renamed(kids[1..], n, m)
  }

  lemma {:induction false} FindNone(kids: seq<Entry>, n: Name)
    ensures Find(kids, n) == None <==> forall i :: 0 <= i < |kids| ==> kids[i].name != n
  {
    if kids != [] && kids[0].name != n {
      FindNone(kids[1..], n);
      assert forall i :: 0 < i < |kids| ==> kids[i] == kids[1..][i - 1];
    }
  }

  lemma FindAdd(kids: seq<Entry>, e: Entry, m: Name)
    ensures Find([e] + kids, m) == if m == e.name then Some(e.ino) else Find(kids, m)
  {
    assert ([e] + kids)[1..] == kids;
  }

  lemma UniqueAdd(kids: seq<Entry>, e: Entry)
    requires Unique(kids) && Find(kids, e.name) == None
    ensures Unique([e] + kids)
  {
    FindNone(kids, e.name);
  }

  lemma {:induction false} FindRemove(kids: seq<Entry>, n: Name, m: Name)
    requires Unique(kids)
    ensures Unique(Remove(kids, n))
    ensures Find(Remove(kids, n), m) == if m == n then None else Find(kids, m)
  {
    if kids != [] {
      if kids[0].name == n {
        FindNone(kids[1..], n);
      } else {
        FindRemove(kids[1..], n, m);
        FindRemove(kids[1..], n, kids[0].name);
        FindNone(kids[1..], kids[0].name);
        UniqueAdd(Remove(kids[1..], n), kids[0]);
        FindAdd(Remove(kids[1..], n), kids[0], m);
      }
    }
  }

  lemma {:induction false} FindRenamed(kids: seq<Entry>, n: Name, to: Name, m: Name)
    requires Unique(kids) && Find(kids, n).Some? && Find(kids, to) == None
    ensures Unique(Renamed(kids, n, to))
    ensures Find(Renamed(kids, n, to), m) == if m == to then Find(kids, n) else if m == n then None else Find(kids, m)
  {
    if kids[0].name == n {
      FindNone(kids[1..], n);
      UniqueAdd(kids[1..], Entry(to, kids[0].ino));
      FindAdd(kids[1..], Entry(to, kids[0].ino), m);
    } else {
      FindRenamed(kids[1..], n, to, m);
      FindRenamed(kids[1..], n, to, kids[0].name);
      FindNone(kids[1..], kids[0].name);
      UniqueAdd(Renamed(kids[1..], n, to), kids[0]);
      FindAdd(Renamed(kids[1..], n, to), kids[0], m);
    }
  }

  // ---------- all entries of all directories ----------

  predicate IsDir(ram: Ram, x: Ino) {
    x in ram && ram[x].kind.Dir?
  }

  /** ramfs_find_child: nothing in anything but a directory. */
  function Look(ram: Ram, d: Ino, n: Name): Option<Ino> {
    if IsDir(ram, d) then Find(ram[d].kids, n) else None
  }

  /** Every entry of the file system: what each name in each directory stands for. */
  type Names = map<Key, Ino>

  function Get(at: Names, k: Key): Option<Ino> {
    if k in at then Some(at[k]) else None
  }

  /** The list of directory d spells out the names in d. */
  ghost predicate Spells(kids: seq<Entry>, at: Names, d: Ino) {
    Unique(kids) && forall n {:trigger Find(kids, n)} {:trigger Key(d, n)} :: Find(kids, n) == Get(at, Key(d, n))
  }

  ghost predicate ListsOk(ram: Ram, at: Names) {
    && (forall d {:trigger Spells(ram[d].kids, at, d)} :: d in ram ==> Spells(ram[d].kids, at, d))
    && (forall k :: k in at ==> IsDir(ram, k.dir))
  }

  lemma LookIsGet(ram: Ram, at: Names, d: Ino, n: Name)
    requires ListsOk(ram, at)
    ensures Look(ram, d, n) == Get(at, Key(d, n))
  {
    if IsDir(ram, d) {
      assert Spells(ram[d].kids, at, d);
    }
  }

  /** A directory list is empty exactly when the directory has no names. */
  lemma EmptyIff(ram: Ram, at: Names, d: Ino)
    requires ListsOk(ram, at) && d in ram
    ensures ram[d].kids == [] <==> forall k :: k in at ==> k.dir != d
  {
    assert Spells(ram[d].kids, at, d);
    var kids := ram[d].kids;
    if kids != [] {
      assert Find(kids, kids[0].name) == Some(kids[0].ino);
      assert Key(d, kids[0].name) in at;
    } else {
      forall k | k in at ensures k.dir != d {
        assert Find(kids, k.name) == None;
        assert k == Key(k.dir, k.name);
      }
    }
  }

  lemma SpellsElsewhere(kids: seq<Entry>, at: Names, at': Names, d: Ino)
    requires Spells(kids, at, d) && forall k: Key {:trigger Get(at', k)} :: k.dir == d ==> Get(at', k) == Get(at, k)
    ensures Spells(kids, at', d)
  {
    forall n ensures Find(kids, n) == Get(at', Key(d, n)) {
      var k := Key(d, n);
      assert Get(at', k) == Get(at, k);
    }
  }

  lemma SpellsAdd(kids: seq<Entry>, at: Names, d: Ino, n: Name, x: Ino)
    requires Spells(kids, at, d) && Key(d, n) !in at
    ensures Spells([Entry(n, x)] + kids, at[Key(d, n) := x], d)
  {
    assert Find(kids, n) == None;
    UniqueAdd(kids, Entry(n, x));
    forall m ensures Find([Entry(n, x)] + kids, m) == Get(at[Key(d, n) := x], Key(d, m)) {
      FindAdd(kids, Entry(n, x), m);
    }
  }

  lemma SpellsRemove(kids: seq<Entry>, at: Names, d: Ino, n: Name)
    requires Spells(kids, at, d)
    ensures Spells(Remove(kids, n), at - {Key(d, n)}, d)
  {
    FindRemove(kids, n, n);
    forall m ensures Find(Remove(kids, n), m) == Get(at - {Key(d, n)}, Key(d, m)) {
      FindRemove(kids, n, m);
    }
  }

  lemma SpellsRename(kids: seq<Entry>, at: Names, d: Ino, n: Name, to: Name)
    requires Spells(kids, at, d) && Key(d, n) in at && Key(d, to) !in at
    ensures Spells(Renamed(kids, n, to), at[Key(d, to) := at[Key(d, n)]] - {Key(d, n)}, d)
  {
    var at' := at[Key(d, to) := at[Key(d, n)]] - {Key(d, n)};
    assert Find(kids, n).Some? && Find(kids, to) == None;
    FindRenamed(kids, n, to, n);
    forall m ensures Find(Renamed(kids, n, to), m) == Get(at', Key(d, m)) {
      FindRenamed(kids, n, to, m);
    }
  }

  // ---------- the tree ----------

  /** The names of an inode. */
  ghost function NamesOf(at: Names, x: Ino): set<Key> {
    set k | k in at && at[k] == x
  }

  /** The root, or a directory with a name. */
  ghost predicate Attached(ram: Ram, at: Names, d: Ino) {
    IsDir(ram, d) && (d == ROOT || NamesOf(at, d) != {})
  }

  type Ranks = map<Ino, nat>

  /** An entry lies in an attached directory; that of a directory lies in its parent, nearer to the root. */
  ghost predicate KeyOk(ram: Ram, at: Names, rank: Ranks, k: Key)
    requires k in at
  {
    && at[k] in ram && at[k] != ROOT && Attached(ram, at, k.dir)
    && (IsDir(ram, at[k]) ==> ram[at[k]].parent == k.dir && k.dir in rank && at[k] in rank && rank[k.dir] < rank[at[k]])
  }

  ghost predicate Once(ram: Ram, at: Names, k: Key, l: Key)
    requires k in at && l in at
  {
    at[k] == at[l] && IsDir(ram, at[k]) ==> k == l
  }

  /** nlink counts the names of a file; a directory has 2 while it has a name. */
  ghost predicate NodeOk(ram: Ram, at: Names, x: Ino)
    requires x in ram
  {
    ram[x].nlink == if !IsDir(ram, x) then |NamesOf(at, x)| else if Attached(ram, at, x) then 2 else 0
  }

  ghost predicate TreeOk(ram: Ram, at: Names, rank: Ranks, hand: set<Ino>) {
    && IsDir(ram, ROOT) && rank.Keys == ram.Keys
    && (forall k {:trigger KeyOk(ram, at, rank, k)} :: k in at ==> KeyOk(ram, at, rank, k))
    && (forall k, l {:trigger Once(ram, at, k, l)} :: k in at && l in at ==> Once(ram, at, k, l))
    && (forall x {:trigger NodeOk(ram, at, x)} :: x in ram ==> NodeOk(ram, at, x))
    && (forall x {:trigger Kept(ram, x)} :: x in ram && x !in hand ==> Kept(ram, x))
  }

  /** An inode has a name or a user. */
  ghost predicate Kept(ram: Ram, x: Ino)
    requires x in ram
  {
    ram[x].nlink > 0 || ram[x].count > 0
  }

  // ---------- new names ----------

  function FirstLinks(k: Kind): nat {
    if k.Dir? then 2 else 1
  }

  /** ramfs_alloc_inode and ramfs_add_child. */
  function Created(ram: Ram, d: Ino, n: Name, x: Ino, k: Kind): Ram
    requires d in ram
  {
    ram[x := Node(k, [], if k.Dir? then d else ROOT, FirstLinks(k), 0)]
       [d := ram[d].(kids := [Entry(n, x)] + ram[d].kids)]
  }

  lemma CreatedLists(ram: Ram, at: Names, d: Ino, n: Name, x: Ino, k: Kind)
    requires ListsOk(ram, at) && IsDir(ram, d) && x !in ram && Key(d, n) !in at
    ensures ListsOk(Created(ram, d, n, x, k), at[Key(d, n) := x])
  {
    var r, at' := Created(ram, d, n, x, k), at[Key(d, n) := x];
    forall y | y in r ensures Spells(r[y].kids, at', y) {
      if y == d {
        assert Spells(ram[d].kids, at, d);
        SpellsAdd(ram[d].kids, at, d, n, x);
      } else if y == x {
        assert forall m :: Key(x, m) !in at';
      } else {
        assert Spells(ram[y].kids, at, y);
        SpellsElsewhere(ram[y].kids, at, at', y);
      }
    }
  }

  lemma NamesAdd(at: Names, k: Key, x: Ino, y: Ino)
    requires k !in at
    ensures NamesOf(at[k := x], y) == NamesOf(at, y) + if y == x then {k} else {}
  {
  }

  lemma NewHasNoNames(ram: Ram, at: Names, rank: Ranks, x: Ino, hand: set<Ino>)
    requires TreeOk(ram, at, rank, hand) && x !in ram
    ensures NamesOf(at, x) == {}
  {
    forall l | l in at ensures at[l] != x {
      assert KeyOk(ram, at, rank, l);
    }
  }

  /** The condition of one entry carries over when its inodes stay as they are and its directory stays attached. */
  lemma KeyCarries(ram: Ram, at: Names, rank: Ranks, r: Ram, at': Names, h: Ranks, l: Key)
    requires l in at && l in at' && at'[l] == at[l] && KeyOk(ram, at, rank, l)
    requires at[l] in r && r[at[l]].kind == ram[at[l]].kind && r[at[l]].parent == ram[at[l]].parent
    requires l.dir in r && r[l.dir].kind == ram[l.dir].kind && (l.dir == ROOT || NamesOf(at', l.dir) != {})
    requires l.dir in rank && at[l] in rank ==>
              l.dir in h && at[l] in h && (rank[l.dir] < rank[at[l]] ==> h[l.dir] < h[at[l]])
    ensures KeyOk(r, at', h, l)
  {
  }

  lemma CreatedKey(ram: Ram, at: Names, rank: Ranks, d: Ino, n: Name, x: Ino, k: Kind, l: Key)
    requires TreeOk(ram, at, rank, {}) && Attached(ram, at, d) && x !in ram && Key(d, n) !in at
    requires l in at[Key(d, n) := x]
    ensures KeyOk(Created(ram, d, n, x, k), at[Key(d, n) := x], rank[x := rank[d] + 1], l)
  {
    var r, key, h := Created(ram, d, n, x, k), Key(d, n), rank[x := rank[d] + 1];
    var at' := at[key := x];
    NamesAdd(at, key, x, l.dir);
    if l != key {
      assert KeyOk(ram, at, rank, l);
      KeyCarries(ram, at, rank, r, at', h, l);
    }
  }

  lemma CreatedOnce(ram: Ram, at: Names, rank: Ranks, d: Ino, n: Name, x: Ino, k: Kind, l: Key, m: Key)
    requires TreeOk(ram, at, rank, {}) && d in ram && x !in ram && Key(d, n) !in at
    requires l in at[Key(d, n) := x] && m in at[Key(d, n) := x]
    ensures Once(Created(ram, d, n, x, k), at[Key(d, n) := x], l, m)
  {
    if l in at {
      assert KeyOk(ram, at, rank, l);
    }
    if m in at {
      assert KeyOk(ram, at, rank, m);
    }
    if l in at && m in at {
      assert Once(ram, at, l, m);
    }
  }

  lemma CreatedNode(ram: Ram, at: Names, rank: Ranks, d: Ino, n: Name, x: Ino, k: Kind, y: Ino)
    requires TreeOk(ram, at, rank, {}) && Attached(ram, at, d) && x !in ram && Key(d, n) !in at
    requires y in Created(ram, d, n, x, k)
    ensures NodeOk(Created(ram, d, n, x, k), at[Key(d, n) := x], y) && Kept(Created(ram, d, n, x, k), y)
  {
    NamesAdd(at, Key(d, n), x, y);
    NewHasNoNames(ram, at, rank, x, {});
    if y != x {
      assert NodeOk(ram, at, y) && Kept(ram, y);
    }
  }

  lemma CreatedTree(ram: Ram, at: Names, rank: Ranks, d: Ino, n: Name, x: Ino, k: Kind)
    requires TreeOk(ram, at, rank, {}) && Attached(ram, at, d) && x !in ram && Key(d, n) !in at
    ensures TreeOk(Created(ram, d, n, x, k), at[Key(d, n) := x], rank[x := rank[d] + 1], {})
  {
    var r, at' := Created(ram, d, n, x, k), at[Key(d, n) := x];
    forall l | l in at' ensures KeyOk(r, at', rank[x := rank[d] + 1], l) {
      CreatedKey(ram, at, rank, d, n, x, k, l);
    }
    forall l, m | l in at' && m in at' ensures Once(r, at', l, m) {
      CreatedOnce(ram, at, rank, d, n, x, k, l, m);
    }
    forall y | y in r ensures NodeOk(r, at', y) && Kept(r, y) {
      CreatedNode(ram, at, rank, d, n, x, k, y);
    }
  }

  /** ramfs_inode_link: one more name for a file. */
  function LinkedTo(ram: Ram, d: Ino, n: Name, x: Ino): Ram
    requires d in ram && x in ram
  {
    ram[x := ram[x].(nlink := ram[x].nlink + 1)][d := ram[d].(kids := [Entry(n, x)] + ram[d].kids)]
  }

  lemma LinkedLists(ram: Ram, at: Names, d: Ino, n: Name, x: Ino)
    requires ListsOk(ram, at) && IsDir(ram, d) && x in ram && !IsDir(ram, x) && Key(d, n) !in at
    ensures ListsOk(LinkedTo(ram, d, n, x), at[Key(d, n) := x])
  {
    var r, at' := LinkedTo(ram, d, n, x), at[Key(d, n) := x];
    forall y | y in r ensures Spells(r[y].kids, at', y) {
      assert Spells(ram[y].kids, at, y);
      if y == d {
        SpellsAdd(ram[d].kids, at, d, n, x);
      } else {
        SpellsElsewhere(ram[y].kids, at, at', y);
      }
    }
  }

  lemma LinkedKey(ram: Ram, at: Names, rank: Ranks, d: Ino, n: Name, x: Ino, l: Key)
    requires TreeOk(ram, at, rank, {}) && Attached(ram, at, d) && x in ram && !IsDir(ram, x) && Key(d, n) !in at
    requires l in at[Key(d, n) := x]
    ensures KeyOk(LinkedTo(ram, d, n, x), at[Key(d, n) := x], rank, l)
  {
    NamesAdd(at, Key(d, n), x, l.dir);
    if l != Key(d, n) {
      assert KeyOk(ram, at, rank, l);
      KeyCarries(ram, at, rank, LinkedTo(ram, d, n, x), at[Key(d, n) := x], rank, l);
    }
  }

  lemma LinkedNode(ram: Ram, at: Names, rank: Ranks, d: Ino, n: Name, x: Ino, y: Ino)
    requires TreeOk(ram, at, rank, {}) && d in ram && x in ram && x != d && !IsDir(ram, x) && Key(d, n) !in at
    requires y in ram
    ensures NodeOk(LinkedTo(ram, d, n, x), at[Key(d, n) := x], y) && Kept(LinkedTo(ram, d, n, x), y)
  {
    NamesAdd(at, Key(d, n), x, y);
    assert NodeOk(ram, at, y) && Kept(ram, y);
  }

  lemma LinkedTree(ram: Ram, at: Names, rank: Ranks, d: Ino, n: Name, x: Ino)
    requires TreeOk(ram, at, rank, {}) && Attached(ram, at, d) && x in ram && !IsDir(ram, x) && Key(d, n) !in at
    ensures TreeOk(LinkedTo(ram, d, n, x), at[Key(d, n) := x], rank, {})
  {
    var r, at' := LinkedTo(ram, d, n, x), at[Key(d, n) := x];
    forall l | l in at' ensures KeyOk(r, at', rank, l) {
      LinkedKey(ram, at, rank, d, n, x, l);
    }
    forall l, m | l in at' && m in at' ensures Once(r, at', l, m) {
      if l in at && m in at {
        assert Once(ram, at, l, m);
      }
    }
    forall y | y in r ensures NodeOk(r, at', y) && Kept(r, y) {
      LinkedNode(ram, at, rank, d, n, x, y);
    }
  }

  // ---------- names that go ----------

  /** ramfs_remove_child with drop_nlink, or clear_nlink for a directory, before anything is freed. */
  function Unlinked(ram: Ram, d: Ino, n: Name, x: Ino): Ram
    requires d in ram && x in ram
  {
    var s := ram[x];
    ram[x := s.(nlink := if s.kind.Dir? || s.nlink == 0 then 0 else s.nlink - 1)]
       [d := ram[d].(kids := Remove(ram[d].kids, n))]
  }

  lemma NamesDrop(at: Names, k: Key, y: Ino)
    ensures NamesOf(at - {k}, y) == NamesOf(at, y) - {k}
  {
  }

  /** A directory has no other name than the one in its parent, and is not its own parent. */
  lemma OneName(ram: Ram, at: Names, rank: Ranks, hand: set<Ino>, k: Key)
    requires TreeOk(ram, at, rank, hand) && k in at
    ensures at[k] in ram && at[k] != k.dir && at[k] != ROOT && k.dir in ram
    ensures IsDir(ram, at[k]) ==> NamesOf(at, at[k]) == {k}
  {
    assert KeyOk(ram, at, rank, k);
    if IsDir(ram, at[k]) {
      forall l | l in NamesOf(at, at[k]) ensures l == k {
        assert Once(ram, at, k, l);
      }
      assert NamesOf(at, at[k]) == {k};
    }
  }

  ghost predicate EmptyDir(at: Names, x: Ino) {
    forall k :: k in at ==> k.dir != x
  }

  lemma UnlinkedLists(ram: Ram, at: Names, k: Key)
    requires ListsOk(ram, at) && k in at && at[k] in ram && at[k] != k.dir
    ensures k.dir in ram && ListsOk(Unlinked(ram, k.dir, k.name, at[k]), at - {k})
  {
    var r, at' := Unlinked(ram, k.dir, k.name, at[k]), at - {k};
    forall y | y in r ensures Spells(r[y].kids, at', y) {
      assert Spells(ram[y].kids, at, y);
      if y == k.dir {
        SpellsRemove(ram[y].kids, at, y, k.name);
        assert k == Key(k.dir, k.name);
      } else {
        SpellsElsewhere(ram[y].kids, at, at', y);
      }
    }
  }

  lemma UnlinkedKey(ram: Ram, at: Names, rank: Ranks, k: Key, l: Key)
    requires TreeOk(ram, at, rank, {}) && k in at && EmptyDir(at, at[k]) && l in at && l != k
    ensures k.dir in ram && at[k] in ram && KeyOk(Unlinked(ram, k.dir, k.name, at[k]), at - {k}, rank, l)
  {
    OneName(ram, at, rank, {}, k);
    assert KeyOk(ram, at, rank, l);
    NamesDrop(at, k, l.dir);
    assert l.dir != at[k];
    assert k !in NamesOf(at, l.dir);
    KeyCarries(ram, at, rank, Unlinked(ram, k.dir, k.name, at[k]), at - {k}, rank, l);
  }

  lemma UnlinkedNode(ram: Ram, at: Names, rank: Ranks, k: Key, y: Ino)
    requires TreeOk(ram, at, rank, {}) && k in at && y in ram
    ensures k.dir in ram && at[k] in ram && NodeOk(Unlinked(ram, k.dir, k.name, at[k]), at - {k}, y)
    ensures y != at[k] ==> Kept(Unlinked(ram, k.dir, k.name, at[k]), y)
  {
    OneName(ram, at, rank, {}, k);
    NamesDrop(at, k, y);
    assert NodeOk(ram, at, y) && Kept(ram, y);
    if y != at[k] {
      assert k !in NamesOf(at, y);
    } else {
      assert k in NamesOf(at, y);
    }
  }

  lemma UnlinkedTree(ram: Ram, at: Names, rank: Ranks, k: Key)
    requires TreeOk(ram, at, rank, {}) && k in at && EmptyDir(at, at[k])
    ensures k.dir in ram && at[k] in ram && TreeOk(Unlinked(ram, k.dir, k.name, at[k]), at - {k}, rank, {at[k]})
  {
    OneName(ram, at, rank, {}, k);
    var r, at' := Unlinked(ram, k.dir, k.name, at[k]), at - {k};
    forall l | l in at' ensures KeyOk(r, at', rank, l) {
      UnlinkedKey(ram, at, rank, k, l);
    }
    forall l, m | l in at' && m in at' ensures Once(r, at', l, m) {
      assert Once(ram, at, l, m);
    }
    forall y | y in r ensures NodeOk(r, at', y) {
      UnlinkedNode(ram, at, rank, k, y);
    }
    forall y | y in r && y != at[k] ensures Kept(r, y) {
      UnlinkedNode(ram, at, rank, k, y);
    }
  }

  // ---------- inodes that go ----------

  /** An entry removed and added again: it is now the first of its list. */
  function Requeued(ram: Ram, d: Ino, n: Name, x: Ino): Ram
    requires d in ram
  {
    ram[d := ram[d].(kids := [Entry(n, x)] + Remove(ram[d].kids, n))]
  }

  lemma RequeuedOk(ram: Ram, at: Names, rank: Ranks, d: Ino, n: Name, x: Ino)
    requires ListsOk(ram, at) && TreeOk(ram, at, rank, {}) && Get(at, Key(d, n)) == Some(x)
    ensures d in ram && ListsOk(Requeued(ram, d, n, x), at) && TreeOk(Requeued(ram, d, n, x), at, rank, {})
  {
    var r, k := Requeued(ram, d, n, x), Key(d, n);
    assert (at - {k})[k := x] == at;
    forall y | y in r ensures Spells(r[y].kids, at, y) {
      assert Spells(ram[y].kids, at, y);
      if y == d {
        SpellsRemove(ram[d].kids, at, d, n);
        SpellsAdd(Remove(ram[d].kids, n), at - {k}, d, n, x);
      }
    }
    forall l | l in at ensures KeyOk(r, at, rank, l) { assert KeyOk(ram, at, rank, l); }
    forall l, m | l in at && m in at ensures Once(r, at, l, m) { assert Once(ram, at, l, m); }
    forall y | y in r ensures NodeOk(r, at, y) && Kept(r, y) { assert NodeOk(ram, at, y) && Kept(ram, y); }
  }

  /** inode_maybe_evict: an inode without names and without users is freed. */
  function Evicted(ram: Ram, x: Ino): Ram
    requires x in ram
  {
    if ram[x].count == 0 && ram[x].nlink == 0 then ram - {x} else ram
  }

  /** An inode with link count 0 has no name and no children. */
  lemma Nameless(ram: Ram, at: Names, rank: Ranks, hand: set<Ino>, x: Ino)
    requires TreeOk(ram, at, rank, hand) && x in ram && ram[x].nlink == 0
    ensures NamesOf(at, x) == {} && EmptyDir(at, x) && x != ROOT
  {
    assert NodeOk(ram, at, x);
    forall k | k in at ensures k.dir != x {
      assert KeyOk(ram, at, rank, k);
    }
  }

  lemma EvictedLists(ram: Ram, at: Names, x: Ino)
    requires ListsOk(ram, at) && x in ram && EmptyDir(at, x)
    ensures ListsOk(Evicted(ram, x), at)
  {
    var r := Evicted(ram, x);
    forall y | y in r ensures Spells(r[y].kids, at, y) {
      assert Spells(ram[y].kids, at, y);
    }
  }

  lemma EvictedTree(ram: Ram, at: Names, rank: Ranks, x: Ino)
    requires TreeOk(ram, at, rank, {x}) && x in ram
    ensures TreeOk(Evicted(ram, x), at, map y | y in rank && y in Evicted(ram, x) :: rank[y], {})
  {
    var r, h := Evicted(ram, x), map y | y in rank && y in Evicted(ram, x) :: rank[y];
    if ram[x].count == 0 && ram[x].nlink == 0 {
      Nameless(ram, at, rank, {x}, x);
    }
    forall l | l in at ensures KeyOk(r, at, h, l) {
      assert KeyOk(ram, at, rank, l);
      assert l in NamesOf(at, at[l]);
      KeyCarries(ram, at, rank, r, at, h, l);
    }
    forall l, m | l in at && m in at ensures Once(r, at, l, m) {
      assert Once(ram, at, l, m);
    }
    forall y | y in r ensures NodeOk(r, at, y) && Kept(r, y) {
      assert NodeOk(ram, at, y);
      if y != x {
        assert Kept(ram, y);
      }
    }
  }

  /** iget, and iput before anything is freed. */
  function Counted(ram: Ram, x: Ino, c: nat): Ram
    requires x in ram
  {
    ram[x := ram[x].(count := c)]
  }

  lemma CountedOk(ram: Ram, at: Names, rank: Ranks, x: Ino, c: nat)
    requires ListsOk(ram, at) && TreeOk(ram, at, rank, {}) && x in ram
    ensures ListsOk(Counted(ram, x, c), at) && TreeOk(Counted(ram, x, c), at, rank, {x})
    ensures c >= ram[x].count ==> TreeOk(Counted(ram, x, c), at, rank, {})
  {
    var r := Counted(ram, x, c);
    forall y | y in r ensures Spells(r[y].kids, at, y) {
      assert Spells(ram[y].kids, at, y);
    }
    forall l | l in at ensures KeyOk(r, at, rank, l) {
      assert KeyOk(ram, at, rank, l);
    }
    forall l, m | l in at && m in at ensures Once(r, at, l, m) {
      assert Once(ram, at, l, m);
    }
    forall y | y in r ensures NodeOk(r, at, y) && (y != x || c >= ram[x].count ==> Kept(r, y)) {
      assert NodeOk(ram, at, y) && Kept(ram, y);
    }
  }

  // ---------- names that move ----------

  /** Going up from y by parent pointers one meets x. */
  ghost predicate Under(ram: Ram, rank: Ranks, x: Ino, y: Ino)
    decreases if y in rank then rank[y] else 0
  {
    y == x || (IsDir(ram, y) && y != ROOT && y in rank && ram[y].parent in rank && rank[ram[y].parent] < rank[y]
               && Under(ram, rank, x, ram[y].parent))
  }

  /** The end of ramfs_inode_rename: in place within a directory, else off one list and onto the other. */
  function Moved(ram: Ram, k: Key, l: Key, x: Ino): Ram
    requires k.dir in ram && l.dir in ram && x in ram
  {
    if k.dir == l.dir then
      ram[k.dir := ram[k.dir].(kids := Renamed(ram[k.dir].kids, k.name, l.name))]
    else
      var s := ram[x];
      ram[x := if s.kind.Dir? then s.(parent := l.dir) else s]
         [k.dir := ram[k.dir].(kids := Remove(ram[k.dir].kids, k.name))]
         [l.dir := ram[l.dir].(kids := [Entry(l.name, x)] + ram[l.dir].kids)]
  }

  function MovedNames(at: Names, k: Key, l: Key): Names
    requires k in at
  {
    at[l := at[k]] - {k}
  }

  /** Everything below x is raised above the new parent. */
  ghost function Raised(ram: Ram, rank: Ranks, x: Ino, e: Ino): Ranks
    requires e in rank
  {
    map y | y in rank :: if Under(ram, rank, x, y) then rank[y] + rank[e] + 1 else rank[y]
  }

  lemma MovedLists(ram: Ram, at: Names, k: Key, l: Key)
    requires ListsOk(ram, at) && k in at && l !in at && IsDir(ram, l.dir) && at[k] in ram && at[k] != k.dir
    requires at[k] != l.dir
    ensures k.dir in ram && ListsOk(Moved(ram, k, l, at[k]), MovedNames(at, k, l))
  {
    var r, at', x := Moved(ram, k, l, at[k]), MovedNames(at, k, l), at[k];
    assert k == Key(k.dir, k.name) && l == Key(l.dir, l.name);
    forall y | y in r ensures Spells(r[y].kids, at', y) {
      assert Spells(ram[y].kids, at, y);
      if y == k.dir == l.dir {
        SpellsRename(ram[y].kids, at, y, k.name, l.name);
      } else if y == k.dir {
        SpellsRemove(ram[y].kids, at, y, k.name);
        SpellsElsewhere(Remove(ram[y].kids, k.name), at - {k}, at', y);
      } else if y == l.dir {
        SpellsAdd(ram[y].kids, at, y, l.name, x);
        SpellsElsewhere([Entry(l.name, x)] + ram[y].kids, at[l := x], at', y);
      } else {
        SpellsElsewhere(ram[y].kids, at, at', y);
      }
    }
  }

  lemma MovedNamesOf(at: Names, k: Key, l: Key, y: Ino)
    requires k in at && l !in at
    ensures NamesOf(MovedNames(at, k, l), y) == if y == at[k] then NamesOf(at, y) - {k} + {l} else NamesOf(at, y)
    ensures NamesOf(MovedNames(at, k, l), y) != {} <==> NamesOf(at, y) != {}
    ensures |NamesOf(MovedNames(at, k, l), y)| == |NamesOf(at, y)|
  {
    var at' := MovedNames(at, k, l);
    assert NamesOf(at', y) == if y == at[k] then NamesOf(at, y) - {k} + {l} else NamesOf(at, y);
    if y == at[k] {
      assert k in NamesOf(at, y) && l !in NamesOf(at, y) && l in NamesOf(at', y);
    }
  }

  lemma RaisedPair(ram: Ram, at: Names, rank: Ranks, x: Ino, e: Ino, l: Key)
    requires e in rank && l in at && KeyOk(ram, at, rank, l) && IsDir(ram, at[l]) && at[l] != x
    ensures Raised(ram, rank, x, e)[l.dir] < Raised(ram, rank, x, e)[at[l]]
  {
    assert Under(ram, rank, x, at[l]) == Under(ram, rank, x, l.dir);
  }

  /** A name that moves and is not moved below itself. */
  ghost predicate MayMove(ram: Ram, at: Names, rank: Ranks, k: Key, l: Key) {
    && k in at && l !in at && Attached(ram, at, l.dir) && l.dir in rank
    && (IsDir(ram, at[k]) ==> !Under(ram, rank, at[k], l.dir))
  }

  ghost function MovedRank(ram: Ram, at: Names, rank: Ranks, k: Key, l: Key): Ranks
    requires k in at && l.dir in rank
  {
    if k.dir == l.dir || !IsDir(ram, at[k]) then rank else Raised(ram, rank, at[k], l.dir)
  }

  lemma MovedKey(ram: Ram, at: Names, rank: Ranks, k: Key, l: Key, m: Key)
    requires TreeOk(ram, at, rank, {}) && MayMove(ram, at, rank, k, l) && m in MovedNames(at, k, l)
    requires k.dir in ram && at[k] in ram && at[k] != k.dir
    ensures KeyOk(Moved(ram, k, l, at[k]), MovedNames(at, k, l), MovedRank(ram, at, rank, k, l), m)
  {
    var x := at[k];
    MovedNamesOf(at, k, l, m.dir);
    assert KeyOk(ram, at, rank, k);
    if m != l {
      assert KeyOk(ram, at, rank, m);
      assert Once(ram, at, k, m);
      if IsDir(ram, x) && k.dir != l.dir && IsDir(ram, at[m]) {
        RaisedPair(ram, at, rank, x, l.dir, m);
      }
    }
  }

  lemma MovedOnce(ram: Ram, at: Names, k: Key, l: Key, p: Key, q: Key, rank: Ranks)
    requires TreeOk(ram, at, rank, {}) && k in at && l !in at && p in MovedNames(at, k, l) && q in MovedNames(at, k, l)
    requires k.dir in ram && l.dir in ram && at[k] in ram
    ensures Once(Moved(ram, k, l, at[k]), MovedNames(at, k, l), p, q)
  {
    var p', q' := if p == l then k else p, if q == l then k else q;
    assert Once(ram, at, p', q') && KeyOk(ram, at, rank, p');
  }

  lemma MovedNode(ram: Ram, at: Names, k: Key, l: Key, y: Ino)
    requires k in at && l !in at && k.dir in ram && l.dir in ram && at[k] in ram && at[k] != k.dir && at[k] != l.dir
    requires y in ram
    requires NodeOk(ram, at, y) && Kept(ram, y)
    ensures Moved(ram, k, l, at[k]).Keys == ram.Keys
    ensures NodeOk(Moved(ram, k, l, at[k]), MovedNames(at, k, l), y) && Kept(Moved(ram, k, l, at[k]), y)
    ensures IsDir(Moved(ram, k, l, at[k]), y) == IsDir(ram, y)
  {
    MovedNamesOf(at, k, l, y);
  }

  lemma MovedTree(ram: Ram, at: Names, rank: Ranks, k: Key, l: Key)
    requires TreeOk(ram, at, rank, {}) && MayMove(ram, at, rank, k, l)
    ensures k.dir in ram && at[k] in ram
    ensures TreeOk(Moved(ram, k, l, at[k]), MovedNames(at, k, l), MovedRank(ram, at, rank, k, l), {})
  {
    OneName(ram, at, rank, {}, k);
    var r, at', h := Moved(ram, k, l, at[k]), MovedNames(at, k, l), MovedRank(ram, at, rank, k, l);
    assert at[k] != l.dir;
    assert NodeOk(ram, at, ROOT) && Kept(ram, ROOT);
    MovedNode(ram, at, k, l, ROOT);
    forall m | m in at' ensures KeyOk(r, at', h, m) {
      MovedKey(ram, at, rank, k, l, m);
    }
    forall p, q | p in at' && q in at' ensures Once(r, at', p, q) {
      MovedOnce(ram, at, k, l, p, q, rank);
    }
    forall y | y in r ensures NodeOk(r, at', y) && Kept(r, y) {
      assert NodeOk(ram, at, y) && Kept(ram, y);
      MovedNode(ram, at, k, l, y);
    }
  }
}
