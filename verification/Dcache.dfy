/**
 * The dentry tree of fs/dcache.c, and what it has to do with the names of
 * ramfs: every cached dentry stands for an entry that exists.
 */
module Dcache {
  import opened Basics
  import opened Paths
  import opened Ramfs

  type Id = nat

  const TOP: Id := 0                  // root_dentry

  datatype Dent = Dent(name: Name, ino: Ino, parent: Id, kids: seq<Id>)

  type Dents = map<Id, Dent>

  /** The entry a dentry stands for. */
  function DentKey(ds: Dents, id: Id): Key
    requires id in ds && ds[id].parent in ds
  {
    Key(ds[ds[id].parent].ino, ds[id].name)
  }

  /** A dentry is on the list of its parent and stands for the inode its entry names. */
  ghost predicate DentOk(ds: Dents, at: Names, id: Id)
    requires id in ds
  {
    id != TOP ==> ds[id].parent in ds && In(id, ds[ds[id].parent].kids) && Get(at, DentKey(ds, id)) == Some(ds[id].ino)
  }

  ghost predicate KidsOk(ds: Dents, id: Id)
    requires id in ds
  {
    NoRepeats(ds[id].kids)
    && forall k {:trigger In(k, ds[id].kids)} :: In(k, ds[id].kids) ==> k in ds && k != TOP && ds[k].parent == id
  }

  /** Siblings have different names. */
  ghost predicate Apart(ds: Dents, k: Id, l: Id)
    requires k in ds && l in ds
  {
    k != TOP && l != TOP && ds[k].parent == ds[l].parent && ds[k].name == ds[l].name ==> k == l
  }

  ghost predicate DcOk(ds: Dents, at: Names) {
    && TOP in ds && ds[TOP].ino == ROOT
    && (forall id {:trigger DentOk(ds, at, id)} :: id in ds ==> DentOk(ds, at, id))
    && (forall id {:trigger KidsOk(ds, id)} :: id in ds ==> KidsOk(ds, id))
    && (forall k, l {:trigger Apart(ds, k, l)} :: k in ds && l in ds ==> Apart(ds, k, l))
  }

  // ---------- what one dentry per directory means ----------

  /** A directory has at most one dentry. */
  lemma {:induction false} OneDentry(ds: Dents, ram: Ram, at: Names, rank: Ranks, hand: set<Ino>, i: Id, j: Id)
    requires DcOk(ds, at) && TreeOk(ram, at, rank, hand)
    requires i in ds && j in ds && ds[i].ino == ds[j].ino && IsDir(ram, ds[i].ino)
    ensures i == j
    decreases rank[ds[i].ino]
  {
    assert DentOk(ds, at, i) && DentOk(ds, at, j);
    if i != TOP {
      OneName(ram, at, rank, hand, DentKey(ds, i));
      assert KeyOk(ram, at, rank, DentKey(ds, i));
      assert j != TOP && Once(ram, at, DentKey(ds, i), DentKey(ds, j));
      OneDentry(ds, ram, at, rank, hand, ds[i].parent, ds[j].parent);
      assert Apart(ds, i, j);
    } else if j != TOP {
      OneName(ram, at, rank, hand, DentKey(ds, j));
    }
  }

  /** An entry has at most one dentry. */
  lemma SameKey(ds: Dents, ram: Ram, at: Names, rank: Ranks, hand: set<Ino>, i: Id, j: Id)
    requires DcOk(ds, at) && TreeOk(ram, at, rank, hand) && i in ds && j in ds && i != TOP && j != TOP
    requires ds[i].parent in ds && ds[j].parent in ds && DentKey(ds, i) == DentKey(ds, j)
    ensures i == j
  {
    assert DentOk(ds, at, i) && DentOk(ds, at, j);
    assert KeyOk(ram, at, rank, DentKey(ds, i));
    OneDentry(ds, ram, at, rank, hand, ds[i].parent, ds[j].parent);
    assert Apart(ds, i, j);
  }

  lemma HasNames(ds: Dents, at: Names, id: Id)
    requires DcOk(ds, at) && id in ds && ds[id].kids != []
    ensures !EmptyDir(at, ds[id].ino)
  {
    var k := ds[id].kids[0];
    assert KidsOk(ds, id) && In(k, ds[id].kids);
    assert DentOk(ds, at, k);
  }

  /** A dentry whose inode has no children in ramfs has none here. */
  lemma NoKids(ds: Dents, at: Names, id: Id)
    requires DcOk(ds, at) && id in ds && EmptyDir(at, ds[id].ino)
    ensures ds[id].kids == []
  {
    if ds[id].kids != [] {
      HasNames(ds, at, id);
    }
  }

  // ---------- looking up ----------

  /** d_find_child. */
  function FindKid(ds: Dents, kids: seq<Id>, n: Name): Option<Id> {
    if kids == [] then None
    else if kids[0] in ds && ds[kids[0]].name == n then Some(kids[0])
    else FindKid(ds, kids[1..], n)
  }

  lemma {:induction false} FindKidIn(ds: Dents, kids: seq<Id>, n: Name)
    ensures FindKid(ds, kids, n).Some? ==> In(FindKid(ds, kids, n).value, kids) && FindKid(ds, kids, n).value in ds
    ensures FindKid(ds, kids, n).Some? ==> ds[FindKid(ds, kids, n).value].name == n
    ensures FindKid(ds, kids, n) == None ==>
              forall k {:trigger In(k, kids)} :: In(k, kids) && k in ds ==> ds[k].name != n
  {
    if kids != [] {
      FindKidIn(ds, kids[1..], n);
      assert forall k :: k in kids <==> k == kids[0] || In(k, kids[1..]);
    }
  }

  /** d_find_child finds the dentry of an entry if there is one. */
  lemma FindKidSpec(ds: Dents, at: Names, d: Id, n: Name, k: Id)
    requires DcOk(ds, at) && d in ds && k in ds
    ensures FindKid(ds, ds[d].kids, n) == Some(k) <==> k != TOP && ds[k].parent == d && ds[k].name == n
  {
    var f := FindKid(ds, ds[d].kids, n);
    FindKidIn(ds, ds[d].kids, n);
    assert KidsOk(ds, d) && DentOk(ds, at, k);
    if f.Some? {
      assert Apart(ds, f.value, k);
    }
  }

  // ---------- d_add of a new dentry ----------

  function Attach(ds: Dents, d: Id, n: Name, x: Ino, id: Id): Dents
    requires d in ds
  {
    ds[id := Dent(n, x, d, [])][d := ds[d].(kids := [id] + ds[d].kids)]
  }

  lemma AttachDent(ds: Dents, at: Names, d: Id, n: Name, x: Ino, id: Id, k: Id)
    requires DcOk(ds, at) && d in ds && id !in ds && Get(at, Key(ds[d].ino, n)) == Some(x)
    requires k in Attach(ds, d, n, x, id)
    ensures DentOk(Attach(ds, d, n, x, id), at, k) && KidsOk(Attach(ds, d, n, x, id), k)
  {
    assert KidsOk(ds, d);
    PushFacts(ds[d].kids, id);
    if k != id {
      assert DentOk(ds, at, k) && KidsOk(ds, k);
    }
  }

  lemma AttachOk(ds: Dents, at: Names, d: Id, n: Name, x: Ino, id: Id)
    requires DcOk(ds, at) && d in ds && id !in ds && Get(at, Key(ds[d].ino, n)) == Some(x)
    requires FindKid(ds, ds[d].kids, n) == None
    ensures DcOk(Attach(ds, d, n, x, id), at)
  {
    var e := Attach(ds, d, n, x, id);
    forall k | k in e ensures DentOk(e, at, k) && KidsOk(e, k) {
      AttachDent(ds, at, d, n, x, id, k);
    }
    forall k, l | k in e && l in e ensures Apart(e, k, l) {
      if k in ds && l in ds {
        assert Apart(ds, k, l);
      } else if k in ds {
        FindKidSpec(ds, at, d, n, k);
      } else if l in ds {
        FindKidSpec(ds, at, d, n, l);
      }
    }
  }

  // ---------- d_drop ----------

  function Drop(ds: Dents, id: Id): Dents
    requires id in ds && ds[id].parent in ds
  {
    ds[ds[id].parent := ds[ds[id].parent].(kids := Without(ds[ds[id].parent].kids, id))] - {id}
  }

  lemma DropDent(ds: Dents, at: Names, id: Id, k: Id)
    requires DcOk(ds, at) && id in ds && id != TOP && ds[id].kids == [] && ds[id].parent in ds && k in ds && k != id
    ensures DentOk(Drop(ds, id), at, k) && KidsOk(Drop(ds, id), k)
  {
    assert DentOk(ds, at, id) && KidsOk(ds, ds[id].parent);
    WithoutFacts(ds[ds[id].parent].kids, id);
    assert DentOk(ds, at, k) && KidsOk(ds, k);
  }

  lemma DropOk(ds: Dents, at: Names, id: Id)
    requires DcOk(ds, at) && id in ds && id != TOP && ds[id].kids == []
    ensures ds[id].parent in ds && ds[id].parent != id && DcOk(Drop(ds, id), at)
  {
    assert DentOk(ds, at, id);
    var e := Drop(ds, id);
    forall k | k in e ensures DentOk(e, at, k) && KidsOk(e, k) {
      DropDent(ds, at, id, k);
    }
    forall k, l | k in e && l in e ensures Apart(e, k, l) {
      assert Apart(ds, k, l);
    }
  }

  // ---------- d_move ----------

  function MoveDent(ds: Dents, id: Id, p: Id, n: Name): Dents
    requires id in ds && ds[id].parent in ds && p in ds
  {
    var o := ds[id].parent;
    var e := ds[o := ds[o].(kids := Without(ds[o].kids, id))];
    var f := e[id := e[id].(name := n, parent := p)];
    f[p := f[p].(kids := [id] + f[p].kids)]
  }

  lemma MoveLists(ds: Dents, at: Names, id: Id, p: Id, n: Name, j: Id)
    requires DcOk(ds, at) && id in ds && id != TOP && p in ds && p != id && j in ds && ds[id].parent in ds
    ensures KidsOk(MoveDent(ds, id, p, n), j)
    ensures forall m {:trigger In(m, MoveDent(ds, id, p, n)[j].kids)} ::
      In(m, MoveDent(ds, id, p, n)[j].kids) <==> (In(m, ds[j].kids) && m != id) || (j == p && m == id)
  {
    var o := ds[id].parent;
    assert KidsOk(ds, j) && KidsOk(ds, o) && DentOk(ds, at, id);
    WithoutFacts(ds[o].kids, id);
    if j == p {
      var rest := if o == p then Without(ds[o].kids, id) else ds[p].kids;
      PushFacts(rest, id);
    }
  }

  lemma MoveDentOk(ds: Dents, ram: Ram, at: Names, rank: Ranks, id: Id, p: Id, n: Name, j: Id)
    requires DcOk(ds, at) && TreeOk(ram, at, rank, {}) && id in ds && id != TOP && p in ds && p != id && j in ds
    requires ds[id].parent in ds && DentKey(ds, id) in at && Key(ds[p].ino, n) !in at
    ensures DentOk(MoveDent(ds, id, p, n), MovedNames(at, DentKey(ds, id), Key(ds[p].ino, n)), j)
  {
    assert DentOk(ds, at, j) && DentOk(ds, at, id);
    if j != TOP {
      MoveLists(ds, at, id, p, n, ds[j].parent);
      MoveLists(ds, at, id, p, n, p);
      if j != id && DentKey(ds, j) == DentKey(ds, id) {
        SameKey(ds, ram, at, rank, {}, j, id);
      }
    }
  }

  lemma MoveApart(ds: Dents, at: Names, id: Id, p: Id, n: Name, j: Id, m: Id)
    requires DcOk(ds, at) && id in ds && p in ds && p != id && ds[id].parent in ds && Key(ds[p].ino, n) !in at
    requires j in ds && m in ds
    ensures Apart(MoveDent(ds, id, p, n), j, m)
  {
    assert Apart(ds, j, m) && DentOk(ds, at, j) && DentOk(ds, at, m);
    var e := MoveDent(ds, id, p, n);
    assert e[j].name == (if j == id then n else ds[j].name) && e[j].parent == if j == id then p else ds[j].parent;
    assert e[m].name == (if m == id then n else ds[m].name) && e[m].parent == if m == id then p else ds[m].parent;
  }

  /** d_move follows a rename. */
  lemma MoveOk(ds: Dents, ram: Ram, at: Names, rank: Ranks, id: Id, p: Id, n: Name)
    requires DcOk(ds, at) && TreeOk(ram, at, rank, {}) && id in ds && id != TOP && p in ds && p != id
    requires ds[id].parent in ds && DentKey(ds, id) in at && Key(ds[p].ino, n) !in at
    ensures DcOk(MoveDent(ds, id, p, n), MovedNames(at, DentKey(ds, id), Key(ds[p].ino, n)))
  {
    var e, at' := MoveDent(ds, id, p, n), MovedNames(at, DentKey(ds, id), Key(ds[p].ino, n));
    forall j | j in e ensures DentOk(e, at', j) {
      MoveDentOk(ds, ram, at, rank, id, p, n, j);
    }
    forall j | j in e ensures KidsOk(e, j) {
      MoveLists(ds, at, id, p, n, j);
    }
    forall j, m | j in e && m in e ensures Apart(e, j, m) {
      MoveApart(ds, at, id, p, n, j, m);
    }
  }

  // ---------- names that change under the dentries ----------

  lemma NamesGrow(ds: Dents, at: Names, at': Names)
    requires DcOk(ds, at) && forall k :: k in at ==> k in at' && at'[k] == at[k]
    ensures DcOk(ds, at')
  {
    forall id | id in ds ensures DentOk(ds, at', id) {
      assert DentOk(ds, at, id);
    }
  }

  lemma NamesShrink(ds: Dents, at: Names, k: Key)
    requires DcOk(ds, at)
    requires forall id :: id in ds && id != TOP && ds[id].parent in ds ==> DentKey(ds, id) != k
    ensures DcOk(ds, at - {k})
  {
    forall id | id in ds ensures DentOk(ds, at - {k}, id) {
      assert DentOk(ds, at, id);
    }
  }
}
