/** The root directory as a finite map from names to inode numbers, and the link
    counts (fs/sfs/sfs_vnode.c).

    A directory file is an array of 64-byte slots; a slot with inode number 0 is
    free.
  */
module SfsDir {
  import opened Bytes
  import opened SfsLayout
  import opened SfsVolume

  type Name = seq<byte>

  ghost function Slots(c: seq<byte>): (s: seq<Slot>)
    ensures |s| == |c| / 64
    ensures forall k | 0 <= k < |s| :: s[k] == DecodeSlot(c[64 * k..64 * k + 64])
  {
    seq(|c| / 64, k requires 0 <= k < |c| / 64 => DecodeSlot(c[64 * k..64 * k + 64]))
  }

  predicate Used(s: Slot) {
    s.ino != NOINO
  }

  ghost predicate UniqueNames(s: seq<Slot>) {
    forall i, j | 0 <= i < j < |s| && Used(s[i]) && Used(s[j]) :: s[i].name != s[j].name
  }

  ghost predicate Has(s: seq<Slot>, k: nat, x: Name) {
    k < |s| && Used(s[k]) && s[k].name == x
  }

  ghost function NameSet(s: seq<Slot>): set<Name> {
    set k | 0 <= k < |s| && Used(s[k]) :: s[k].name
  }

  ghost function InodeNamed(s: seq<Slot>, x: Name): nat
    requires x in NameSet(s)
  {
    SomeSlot(s, x);
    var k: nat :| Has(s, k, x);
    s[k].ino
  }

  lemma SomeSlot(s: seq<Slot>, x: Name)
    requires x in NameSet(s)
    ensures exists k: nat :: Has(s, k, x)
  {
    var k :| 0 <= k < |s| && Used(s[k]) && s[k].name == x;
    assert Has(s, k, x);
  }

  /** The map a directory stands for. */
  ghost function Names(s: seq<Slot>): map<Name, nat> {
    map x | x in NameSet(s) :: InodeNamed(s, x)
  }

  lemma NameSlot(s: seq<Slot>, k: nat)
    requires UniqueNames(s) && k < |s| && Used(s[k])
    ensures s[k].name in Names(s) && Names(s)[s[k].name] == s[k].ino
  {
    assert Has(s, k, s[k].name);
  }

  lemma SlotOfName(s: seq<Slot>, x: Name) returns (k: nat)
    requires UniqueNames(s) && x in Names(s)
    ensures Has(s, k, x) && Names(s)[x] == s[k].ino
  {
    SomeSlot(s, x);
    k :| Has(s, k, x);
    NameSlot(s, k);
  }

  /** A directory without a free slot has as many names as slots. */
  lemma {:induction false} AllUsed(s: seq<Slot>)
    requires UniqueNames(s) && forall k | 0 <= k < |s| :: Used(s[k])
    ensures |Names(s)| == |s|
  {
    hide Names;
    if s == [] {
      NoNames();
    } else {
      var k := |s| - 1;
      AllUsed(s[..k]);
      NamesLast(s);
    }
  }

  lemma NoNames()
    ensures Names([]) == map[]
  {
  }

  lemma NamesLast(s: seq<Slot>)
    requires s != [] && UniqueNames(s) && forall k | 0 <= k < |s| :: Used(s[k])
    ensures var x := s[|s| - 1]; x.name !in Names(s[..|s| - 1]) && Names(s) == Names(s[..|s| - 1])[x.name := x.ino]
  {
    var k := |s| - 1;
    var t := s[..k];
    var last := s[k].name;
    hide Names;
    if last in Names(t) {
      var j := SlotOfName(t, last);
    }
    assert UniqueNames(t);
    var more := Names(t)[last := s[k].ino];
    forall name | name in Names(s) ensures name in more && Names(s)[name] == more[name] {
      var j := SlotOfName(s, name);
      NameSlot(s, j);
      if j < k {
        NameSlot(t, j);
      }
    }
    forall name | name in Names(t) ensures name in Names(s) {
      var j := SlotOfName(t, name);
      NameSlot(s, j);
    }
    NameSlot(s, k);
  }

  ghost function Naming(s: seq<Slot>, n: nat): set<nat> {
    set k | 0 <= k < |s| && s[k].ino == n
  }

  ghost function UsedSlots(s: seq<Slot>): set<nat> {
    set k | 0 <= k < |s| && Used(s[k])
  }

  lemma {:induction false} NamesBound(s: seq<Slot>)
    ensures |NameSet(s)| <= |UsedSlots(s)|
  {
    hide NameSet, UsedSlots;
    if s == [] {
      NoneUsed();
    } else {
      NamesBound(s[..|s| - 1]);
      LastName(s);
      LastUsed(s);
    }
  }

  lemma NoneUsed()
    ensures NameSet([]) == {} && UsedSlots([]) == {}
  {
  }

  lemma LastUsed(s: seq<Slot>)
    requires s != []
    ensures UsedSlots(s) == UsedSlots(s[..|s| - 1]) + if Used(s[|s| - 1]) then {|s| - 1} else {}
    ensures |s| - 1 !in UsedSlots(s[..|s| - 1])
  {
  }

  lemma LastName(s: seq<Slot>)
    requires s != []
    ensures NameSet(s) == NameSet(s[..|s| - 1]) + if Used(s[|s| - 1]) then {s[|s| - 1].name} else {}
  {
    var k := |s| - 1;
    var t := s[..k];
    forall x | x in NameSet(t) ensures x in NameSet(s) {
      var j :| 0 <= j < |t| && Used(t[j]) && t[j].name == x;
      assert s[j] == t[j];
    }
    forall x | x in NameSet(s) ensures x in NameSet(t) || (Used(s[k]) && x == s[k].name) {
      var j :| 0 <= j < |s| && Used(s[j]) && s[j].name == x;
      assert j < k ==> t[j] == s[j];
    }
  }

  /** A directory has as many names as slots if and only if none is free. */
  lemma FullExactly(s: seq<Slot>)
    requires UniqueNames(s)
    ensures |Names(s)| <= |s|
    ensures |Names(s)| == |s| <==> forall k | 0 <= k < |s| :: Used(s[k])
  {
    NamesBound(s);
    assert Names(s).Keys == NameSet(s);
    SetBound(UsedSlots(s), |s|);
    if k :| 0 <= k < |s| && !Used(s[k]) {
      SetBound(UsedSlots(s) + {k}, |s|);
    } else {
      AllUsed(s);
    }
  }

  /** The number of entries for inode n. */
  ghost function Links(s: seq<Slot>, n: nat): nat {
    |Naming(s, n)|
  }

  ghost function Put(s: seq<Slot>, k: nat, x: Slot): seq<Slot>
    requires k <= |s|
  {
    if k < |s| then s[k := x] else s + [x]
  }

  /** Writing a 64-byte entry at slot k sets that slot. */
  lemma SlotsWrite(c: seq<byte>, k: nat, b: seq<byte>)
    requires |c| % 64 == 0 && k <= |c| / 64 && |b| == 64
    ensures var r := WriteAt(c, 64 * k, b);
            |r| % 64 == 0 && Slots(r) == Put(Slots(c), k, DecodeSlot(b))
  {
    hide DecodeSlot, WriteAt, Slots;
    var r := WriteAt(c, 64 * k, b);
    var s := Put(Slots(c), k, DecodeSlot(b));
    assert |Slots(r)| == |s|;
    forall j | 0 <= j < |s| ensures Slots(r)[j] == s[j] {
      if j == k {
        assert r[64 * j..64 * j + 64] == b;
      } else {
        assert r[64 * j..64 * j + 64] == c[64 * j..64 * j + 64];
      }
    }
  }

  lemma InsertName(s: seq<Slot>, k: nat, n: nat, name: Name)
    requires UniqueNames(s) && k <= |s| && (k < |s| ==> !Used(s[k])) && n != NOINO && name !in Names(s)
    ensures var s' := Put(s, k, Slot(n, name)); UniqueNames(s') && Names(s') == Names(s)[name := n]
  {
    var s' := Put(s, k, Slot(n, name));
    forall j: nat | j < |s| && Used(s[j]) ensures s[j].name != name {
      NameSlot(s, j);
    }
    assert UniqueNames(s');
    hide Names;
    forall x | x in Names(s') ensures x in Names(s)[name := n] && Names(s')[x] == Names(s)[name := n][x] {
      var j := SlotOfName(s', x);
      if j != k {
        NameSlot(s, j);
      }
    }
    forall x | x in Names(s)[name := n] ensures x in Names(s') {
      if x == name {
        NameSlot(s', k);
      } else {
        var j := SlotOfName(s, x);
        NameSlot(s', j);
      }
    }
  }

  lemma InsertLinks(s: seq<Slot>, k: nat, n: nat, name: Name, m: nat)
    requires k <= |s| && (k < |s| ==> !Used(s[k])) && m != NOINO
    ensures Links(Put(s, k, Slot(n, name)), m) == Links(s, m) + if m == n then 1 else 0
  {
    assert Naming(Put(s, k, Slot(n, name)), m) == Naming(s, m) + if m == n then {k} else {};
  }

  lemma DeleteName(s: seq<Slot>, k: nat)
    requires UniqueNames(s) && k < |s| && Used(s[k])
    ensures var s' := s[k := Slot(NOINO, [])]; UniqueNames(s') && Names(s') == Names(s) - {s[k].name}
  {
    var s' := s[k := Slot(NOINO, [])];
    hide Names;
    forall x | x in Names(s') ensures x in Names(s) - {s[k].name} && Names(s')[x] == Names(s)[x] {
      var j := SlotOfName(s', x);
      NameSlot(s, j);
    }
    forall x | x in Names(s) - {s[k].name} ensures x in Names(s') {
      var j := SlotOfName(s, x);
      NameSlot(s', j);
    }
  }

  lemma DeleteLinks(s: seq<Slot>, k: nat, m: nat)
    requires k < |s| && Used(s[k]) && m != NOINO
    ensures Links(s[k := Slot(NOINO, [])], m) == Links(s, m) - if m == s[k].ino then 1 else 0
  {
    var s' := s[k := Slot(NOINO, [])];
    if m == s[k].ino {
      assert Naming(s, m) == Naming(s', m) + {k};
    } else {
      assert Naming(s, m) == Naming(s', m);
    }
  }

  /** Every live inode is the root, is named or is in use, has the right type, and
      counts its entries (the root, one more). */
  ghost predicate LinksOk(s: seq<Slot>, inodes: map<nat, Inode>, loaded: set<nat>) {
    && UniqueNames(s) && |s| <= MAXSLOTS && ROOT_LOCATION in inodes
    && (forall k | 0 <= k < |s| && Used(s[k]) :: s[k].ino in inodes)
    && (forall n | n in inodes :: InodeOk(s, inodes[n], n, loaded))
  }

  ghost predicate InodeOk(s: seq<Slot>, i: Inode, n: nat, loaded: set<nat>) {
    && n != NOINO
    && i.typ == (if n == ROOT_LOCATION then TYPE_DIR else TYPE_FILE)
    && i.linkcount == Links(s, n) + (if n == ROOT_LOCATION then 1 else 0)
    && (n == ROOT_LOCATION || Links(s, n) > 0 || n in loaded)
  }

  /** At most 1144 entries, so a count stays far below 2^16. */
  lemma LinksBound(s: seq<Slot>, n: nat)
    ensures Links(s, n) <= |s|
  {
    SetBound(Naming(s, n), |s|);
  }

  lemma {:induction false} SetBound(x: set<nat>, n: nat)
    requires forall k | k in x :: k < n
    ensures |x| <= n
  {
    if n == 0 {
      assert x == {};
    } else {
      SetBound(x - {n - 1}, n - 1);
      assert n - 1 !in x ==> x - {n - 1} == x;
    }
  }

  /** A named inode has an entry. */
  lemma NamedHasLink(s: seq<Slot>, k: nat)
    requires k < |s|
    ensures Links(s, s[k].ino) > 0
  {
    assert k in Naming(s, s[k].ino);
  }

  lemma LinkNamed(s: seq<Slot>, n: nat)
    requires UniqueNames(s) && n != NOINO
    ensures Links(s, n) > 0 <==> n in Names(s).Values
  {
    if Links(s, n) > 0 {
      assert Naming(s, n) != {};
      var k :| k in Naming(s, n);
      NameSlot(s, k);
    }
    if n in Names(s).Values {
      var x :| x in Names(s) && Names(s)[x] == n;
      var k := SlotOfName(s, x);
      NamedHasLink(s, k);
    }
  }

  /** An entry for n, and n's link count raised. */
  lemma LinkedOk(s: seq<Slot>, inodes: map<nat, Inode>, loaded: set<nat>, k: nat, n: nat, name: Name)
    requires LinksOk(s, inodes, loaded) && n in inodes && name !in Names(s)
    requires k <= |s| && (k < |s| ==> !Used(s[k])) && k < MAXSLOTS
    ensures LinksOk(Put(s, k, Slot(n, name)), inodes[n := inodes[n].(linkcount := inodes[n].linkcount + 1)], loaded)
    ensures Names(Put(s, k, Slot(n, name))) == Names(s)[name := n]
  {
    InsertName(s, k, n, name);
    hide Links, Names, UniqueNames;
    var s' := Put(s, k, Slot(n, name));
    var inodes' := inodes[n := inodes[n].(linkcount := inodes[n].linkcount + 1)];
    forall m | m in inodes' ensures InodeOk(s', inodes'[m], m, loaded) {
      assert InodeOk(s, inodes[m], m, loaded);
      InsertLinks(s, k, n, name, m);
    }
  }

  /** The entry in slot k is gone, and the link count lowered; the file is in use. */
  lemma UnlinkedOk(s: seq<Slot>, inodes: map<nat, Inode>, loaded: set<nat>, k: nat)
    requires LinksOk(s, inodes, loaded) && k < |s| && Used(s[k]) && s[k].ino in loaded
    ensures s[k].ino in inodes && inodes[s[k].ino].linkcount > 0
    ensures var n := s[k].ino;
            var s' := s[k := Slot(NOINO, [])];
            && LinksOk(s', inodes[n := inodes[n].(linkcount := inodes[n].linkcount - 1)], loaded)
            && Names(s') == Names(s) - {s[k].name}
  {
    DeleteName(s, k);
    NamedHasLink(s, k);
    hide Links, Names, UniqueNames;
    var n := s[k].ino;
    assert InodeOk(s, inodes[n], n, loaded);
    var s' := s[k := Slot(NOINO, [])];
    var inodes' := inodes[n := inodes[n].(linkcount := inodes[n].linkcount - 1)];
    forall m | m in inodes' ensures InodeOk(s', inodes'[m], m, loaded) {
      assert InodeOk(s, inodes[m], m, loaded);
      DeleteLinks(s, k, m);
    }
  }

  /** A new inode, in use and without links. */
  lemma AddedOk(s: seq<Slot>, inodes: map<nat, Inode>, loaded: set<nat>, n: nat, i: Inode, loaded': set<nat>)
    requires LinksOk(s, inodes, loaded) && n !in inodes && n != NOINO && i.typ == TYPE_FILE && i.linkcount == 0
    requires loaded <= loaded' && n in loaded'
    ensures LinksOk(s, inodes[n := i], loaded')
  {
    assert Naming(s, n) == {};
    hide Links, UniqueNames;
    var inodes' := inodes[n := i];
    forall m | m in inodes' ensures InodeOk(s, inodes'[m], m, loaded') {
      assert m != n ==> InodeOk(s, inodes[m], m, loaded);
    }
  }

  /** An inode with links goes out of use, or more inodes come into use. */
  lemma LoadedOk(s: seq<Slot>, inodes: map<nat, Inode>, loaded: set<nat>, loaded': set<nat>)
    requires LinksOk(s, inodes, loaded)
    requires forall n | n in inodes && n in loaded && n !in loaded' && n != ROOT_LOCATION :: inodes[n].linkcount > 0
    ensures LinksOk(s, inodes, loaded')
  {
    hide Links, UniqueNames;
    forall m | m in inodes ensures InodeOk(s, inodes[m], m, loaded') {
      assert InodeOk(s, inodes[m], m, loaded);
    }
  }

  /** An inode without links is erased. */
  lemma ErasedOk(s: seq<Slot>, inodes: map<nat, Inode>, loaded: set<nat>, n: nat)
    requires LinksOk(s, inodes, loaded) && n in inodes && inodes[n].linkcount == 0
    ensures n != ROOT_LOCATION && LinksOk(s, inodes - {n}, loaded - {n})
  {
    assert InodeOk(s, inodes[n], n, loaded);
    forall k: nat | k < |s| && Used(s[k]) ensures s[k].ino != n {
      NamedHasLink(s, k);
    }
    hide Links, UniqueNames;
    var inodes' := inodes - {n};
    forall m | m in inodes' ensures InodeOk(s, inodes'[m], m, loaded - {n}) {
      assert InodeOk(s, inodes[m], m, loaded);
    }
  }

  /** Sizes and block pointers do not matter. */
  lemma SameCountsOk(s: seq<Slot>, inodes: map<nat, Inode>, loaded: set<nat>, inodes': map<nat, Inode>)
    requires LinksOk(s, inodes, loaded) && inodes'.Keys == inodes.Keys
    requires forall n | n in inodes :: inodes'[n].typ == inodes[n].typ && inodes'[n].linkcount == inodes[n].linkcount
    ensures LinksOk(s, inodes', loaded)
  {
    hide Links, UniqueNames;
    forall m | m in inodes' ensures InodeOk(s, inodes'[m], m, loaded) {
      assert InodeOk(s, inodes[m], m, loaded);
    }
  }

  // --- The tree on a volume -----------------------------------------------------

  ghost function Dir(v: Volume): seq<Slot>
    requires ROOT_LOCATION in v.inodes
  {
    Slots(Contents(v, ROOT_LOCATION))
  }

  ghost predicate Tree(v: Volume, loaded: set<nat>) {
    && ROOT_LOCATION in v.inodes && v.inodes[ROOT_LOCATION].size % 64 == 0
    && (forall n | n in v.inodes :: ZeroTail(v, n))
    && LinksOk(Dir(v), v.inodes, loaded)
  }

  /** What every file but the root holds. */
  ghost function Files(v: Volume): map<nat, seq<byte>> {
    map n | n in v.inodes && n != ROOT_LOCATION :: Contents(v, n)
  }

  /** The blocks of every file and of the directory. */
  ghost function Maps(v: Volume): map<nat, Extent> {
    map n | n in v.inodes :: ExtentOf(v, n)
  }

  lemma MapsSame(v: Volume, v': Volume)
    requires SameFiles(v, v')
    ensures Maps(v') == Maps(v)
  {
    hide ExtentOf, FileBlock;
  }

  lemma MapsPut(v: Volume, v': Volume, n: nat)
    requires SameBut(v, v', n) && n in v'.inodes
    ensures Maps(v') == Maps(v)[n := ExtentOf(v', n)]
  {
    hide ExtentOf, FileBlock;
    var a, b := Maps(v'), Maps(v)[n := ExtentOf(v', n)];
    forall m ensures (m in a <==> m in b) && (m in a ==> a[m] == b[m]) {
    }
  }

  lemma MapsDrop(v: Volume, v': Volume, n: nat)
    requires SameBut(v, v', n) && n !in v'.inodes
    ensures Maps(v') == Maps(v) - {n}
  {
    hide ExtentOf, FileBlock;
    var a, b := Maps(v'), Maps(v) - {n};
    forall m ensures (m in a <==> m in b) && (m in a ==> a[m] == b[m]) {
    }
  }

  lemma MapsRelinked(v: Volume, n: nat, d: int)
    requires n in v.inodes && v.inodes[n].linkcount + d >= 0
    ensures Maps(v.(inodes := Relinked(v.inodes, n, d))) == Maps(v)
  {
    var v' := v.(inodes := Relinked(v.inodes, n, d));
    forall m | m in v.inodes ensures ExtentOf(v', m) == ExtentOf(v, m) {
      assert forall g: nat :: Mapped(v', m, g) == Mapped(v, m, g);
    }
    hide ExtentOf;
  }

  lemma SameContents(v: Volume, v': Volume, m: nat)
    requires m in v.inodes && m in v'.inodes && v'.inodes[m].size == v.inodes[m].size
    requires forall g: nat :: FileBlock(v', m, g) == FileBlock(v, m, g)
    ensures Contents(v', m) == Contents(v, m) && (ZeroTail(v, m) ==> ZeroTail(v', m))
  {
    assert forall p: nat :: FileByte(v', m, p) == FileByte(v, m, p);
  }

  lemma SameButContents(v: Volume, v': Volume, n: nat, m: nat)
    requires SameBut(v, v', n) && m != n && m in v.inodes
    ensures m in v'.inodes && v'.inodes[m] == v.inodes[m] && Contents(v', m) == Contents(v, m)
    ensures (ZeroTail(v, m) ==> ZeroTail(v', m))
  {
    hide FileBlock;
    SameContents(v, v', m);
  }

  /** The other files, and the directory if n is not the root, are as they were. */
  lemma OtherFiles(v: Volume, v': Volume, n: nat)
    requires SameBut(v, v', n) && ROOT_LOCATION in v.inodes && ROOT_LOCATION in v'.inodes
    requires forall m | m in v.inodes :: ZeroTail(v, m)
    ensures Files(v') - {n} == Files(v) - {n}
    ensures forall m | m in v'.inodes && m != n :: ZeroTail(v', m)
    ensures n != ROOT_LOCATION ==>
              && Contents(v', ROOT_LOCATION) == Contents(v, ROOT_LOCATION)
              && v'.inodes[ROOT_LOCATION] == v.inodes[ROOT_LOCATION]
  {
    forall m | m != n && m in v.inodes
      ensures m in v'.inodes && v'.inodes[m] == v.inodes[m] && Contents(v', m) == Contents(v, m) && ZeroTail(v', m)
    {
      SameButContents(v, v', n, m);
    }
    hide Contents, ZeroTail;
    assert (Files(v') - {n}).Keys == (Files(v) - {n}).Keys;
  }

  /** A file other than the root is written or truncated. */
  lemma TreeFile(v: Volume, v': Volume, n: nat, loaded: set<nat>)
    requires Tree(v, loaded) && SameBut(v, v', n) && n != ROOT_LOCATION && n in v.inodes && n in v'.inodes
    requires ZeroTail(v', n)
    requires v'.inodes[n].typ == v.inodes[n].typ && v'.inodes[n].linkcount == v.inodes[n].linkcount
    ensures Tree(v', loaded) && Dir(v') == Dir(v) && Files(v') == Files(v)[n := Contents(v', n)]
  {
    hide SameBut, Files, Contents, ZeroTail, LinksOk, Slots;
    SameButMinus(v, v', n);
    OtherFiles(v, v', n);
    SameCountsOk(Dir(v), v.inodes, loaded, v'.inodes);
    FilesPut(v, v', n);
  }

  lemma FilesPut(v: Volume, v': Volume, n: nat)
    requires Files(v') - {n} == Files(v) - {n} && n in v'.inodes && n != ROOT_LOCATION
    ensures Files(v') == Files(v)[n := Contents(v', n)]
  {
    hide Contents;
    var a, b := Files(v'), Files(v)[n := Contents(v', n)];
    forall m ensures (m in a <==> m in b) && (m in a ==> a[m] == b[m]) {
      assert m != n ==> (m in a <==> m in a - {n}) && (m in b <==> m in Files(v) - {n});
      assert m != n && m in a ==> a[m] == (a - {n})[m] && (a - {n})[m] == (Files(v) - {n})[m];
    }
  }

  lemma FilesDrop(v: Volume, v': Volume, n: nat)
    requires Files(v') - {n} == Files(v) - {n} && (n !in v'.inodes || n == ROOT_LOCATION)
    ensures Files(v') == Files(v) - {n} && (n == ROOT_LOCATION ==> Files(v') == Files(v))
  {
    assert n !in Files(v') && (n == ROOT_LOCATION ==> n !in Files(v));
    hide Files;
    assert Files(v') - {n} == Files(v');
    assert n == ROOT_LOCATION ==> Files(v) - {n} == Files(v);
  }

  lemma FilesSame(v: Volume, v': Volume)
    requires v'.inodes.Keys == v.inodes.Keys && forall m | m in v.inodes :: Contents(v', m) == Contents(v, m)
    ensures Files(v') == Files(v)
  {
    hide Contents;
  }

  lemma TreeErase(v: Volume, v': Volume, n: nat, loaded: set<nat>)
    requires Tree(v, loaded) && SameBut(v, v', n) && n in v.inodes && v.inodes[n].linkcount == 0 && n !in v'.inodes
    ensures Tree(v', loaded - {n}) && n != ROOT_LOCATION && Dir(v') == Dir(v) && Files(v') == Files(v) - {n}
  {
    hide SameBut, Files, Contents, ZeroTail, LinksOk, Slots;
    ErasedOk(Dir(v), v.inodes, loaded, n);
    SameButMinus(v, v', n);
    OtherFiles(v, v', n);
    FilesDrop(v, v', n);
  }

  lemma SameButMinus(v: Volume, v': Volume, n: nat)
    requires SameBut(v, v', n)
    ensures n !in v'.inodes ==> v'.inodes == v.inodes - {n}
    ensures n !in v.inodes && n in v'.inodes ==> v'.inodes == v.inodes[n := v'.inodes[n]]
    ensures n in v.inodes && n in v'.inodes ==> v'.inodes.Keys == v.inodes.Keys
    ensures n != ROOT_LOCATION && ROOT_LOCATION in v.inodes ==> ROOT_LOCATION in v'.inodes
    ensures forall m | m in v.inodes && m != n :: m in v'.inodes && v'.inodes[m] == v.inodes[m]
  {
    hide FileBlock;
  }

  lemma TreeAdd(v: Volume, v': Volume, n: nat, loaded: set<nat>, loaded': set<nat>)
    requires Tree(v, loaded) && SameBut(v, v', n) && n !in v.inodes && n in v'.inodes && n != NOINO
    requires ZeroTail(v', n) && v'.inodes[n].typ == TYPE_FILE && v'.inodes[n].linkcount == 0
    requires loaded <= loaded' && n in loaded'
    ensures Tree(v', loaded') && Dir(v') == Dir(v) && Files(v') == Files(v)[n := Contents(v', n)]
  {
    hide SameBut, Files, Contents, ZeroTail, LinksOk, Slots;
    AddedOk(Dir(v), v.inodes, loaded, n, v'.inodes[n], loaded');
    SameButMinus(v, v', n);
    OtherFiles(v, v', n);
    FilesPut(v, v', n);
  }

  /** Files are the same; which are in use may differ. */
  lemma TreeSame(v: Volume, v': Volume, loaded: set<nat>, loaded': set<nat>)
    requires Tree(v, loaded) && SameFiles(v, v')
    requires forall n | n in v.inodes && n in loaded && n !in loaded' && n != ROOT_LOCATION :: v.inodes[n].linkcount > 0
    ensures Tree(v', loaded') && Dir(v') == Dir(v) && Files(v') == Files(v)
  {
    LoadedOk(Dir(v), v.inodes, loaded, loaded');
    forall m | m in v.inodes ensures Contents(v', m) == Contents(v, m) && ZeroTail(v', m) {
      assert ZeroTail(v, m);
      SameContents(v, v', m);
    }
    hide Files, Contents, ZeroTail, LinksOk, Slots, FileBlock;
    FilesSame(v, v');
  }

  /** The directory file has not been changed, except perhaps for its blocks. */
  ghost predicate SameTree(v: Volume, v': Volume) {
    && SameBut(v, v', ROOT_LOCATION) && ROOT_LOCATION in v.inodes && ROOT_LOCATION in v'.inodes
    && v'.inodes[ROOT_LOCATION].typ == v.inodes[ROOT_LOCATION].typ
    && v'.inodes[ROOT_LOCATION].linkcount == v.inodes[ROOT_LOCATION].linkcount
    && Contents(v', ROOT_LOCATION) == Contents(v, ROOT_LOCATION) && ZeroTail(v', ROOT_LOCATION)
  }

  lemma TreeKept(v: Volume, v': Volume, loaded: set<nat>)
    requires Tree(v, loaded) && SameTree(v, v')
    ensures Tree(v', loaded) && Dir(v') == Dir(v) && Files(v') == Files(v)
  {
    hide SameBut, Files, Contents, ZeroTail, LinksOk, Slots;
    assert v'.inodes[ROOT_LOCATION].size == |Contents(v', ROOT_LOCATION)| == v.inodes[ROOT_LOCATION].size;
    SameButMinus(v, v', ROOT_LOCATION);
    OtherFiles(v, v', ROOT_LOCATION);
    SameCountsOk(Dir(v), v.inodes, loaded, v'.inodes);
    FilesDrop(v, v', ROOT_LOCATION);
  }

  /** A slot of the directory has been written. */
  ghost predicate SlotWritten(v: Volume, v': Volume, k: nat, b: seq<byte>) {
    FileWritten(v, v', ROOT_LOCATION, 64 * k, b)
  }

  lemma SlotDir(v: Volume, v': Volume, k: nat, b: seq<byte>)
    requires ROOT_LOCATION in v.inodes && v.inodes[ROOT_LOCATION].size % 64 == 0 && k <= |Dir(v)| && |b| == 64
    requires (forall n | n in v.inodes :: ZeroTail(v, n)) && SlotWritten(v, v', k, b)
    ensures v'.inodes.Keys == v.inodes.Keys && v'.inodes[ROOT_LOCATION].size % 64 == 0
    ensures Dir(v') == Put(Dir(v), k, DecodeSlot(b)) && Files(v') == Files(v)
    ensures forall n | n in v'.inodes :: ZeroTail(v', n)
    ensures forall n | n in v.inodes ::
              v'.inodes[n].typ == v.inodes[n].typ && v'.inodes[n].linkcount == v.inodes[n].linkcount
  {
    SlotsWrite(Contents(v, ROOT_LOCATION), k, b);
    assert SameBut(v, v', ROOT_LOCATION);
    hide Files, ZeroTail, Slots, FileBlock;
    OtherFiles(v, v', ROOT_LOCATION);
    FilesDrop(v, v', ROOT_LOCATION);
  }

  function Relinked(inodes: map<nat, Inode>, n: nat, d: int): map<nat, Inode>
    requires n in inodes && inodes[n].linkcount + d >= 0
  {
    inodes[n := inodes[n].(linkcount := inodes[n].linkcount + d)]
  }

  /** A link count does not matter to what files hold. */
  lemma RelinkedFiles(v: Volume, n: nat, d: int)
    requires n in v.inodes && v.inodes[n].linkcount + d >= 0 && ROOT_LOCATION in v.inodes
    requires forall m | m in v.inodes :: ZeroTail(v, m)
    ensures var v' := v.(inodes := Relinked(v.inodes, n, d));
            && Files(v') == Files(v) && Dir(v') == Dir(v) && (forall m | m in v'.inodes :: ZeroTail(v', m))
            && v'.inodes[ROOT_LOCATION].size == v.inodes[ROOT_LOCATION].size
  {
    var v' := v.(inodes := Relinked(v.inodes, n, d));
    assert forall m: nat, g: nat :: FileBlock(v', m, g) == FileBlock(v, m, g);
    hide FileBlock;
    forall m | m in v.inodes ensures Contents(v', m) == Contents(v, m) && ZeroTail(v', m) {
      SameContents(v, v', m);
    }
    hide Files, Contents, ZeroTail;
    FilesSame(v, v');
  }

  /** sfs_dir_link followed by the increment of the link count. */
  lemma TreeLinked(v: Volume, v1: Volume, k: nat, n: word, name: Name, loaded: set<nat>)
    requires Tree(v, loaded) && n in v.inodes && name !in Names(Dir(v)) && |name| < NAMELEN && 0 !in name
    requires k <= |Dir(v)| && (k < |Dir(v)| ==> !Used(Dir(v)[k])) && k < MAXSLOTS
    requires SlotWritten(v, v1, k, EncodeSlot(n, name))
    ensures n in v1.inodes
    ensures var v2 := v1.(inodes := Relinked(v1.inodes, n, 1));
            && Tree(v2, loaded) && Dir(v2) == Put(Dir(v), k, Slot(n, name)) && Files(v2) == Files(v)
            && Names(Dir(v2)) == Names(Dir(v))[name := n]
  {
    DecodeEncodeSlot(n, name);
    hide EncodeSlot, DecodeSlot, Contents, Slots, Names, SlotWritten, Files;
    SlotDir(v, v1, k, EncodeSlot(n, name));
    SameCountsOk(Dir(v), v.inodes, loaded, v1.inodes);
    LinkedOk(Dir(v), v1.inodes, loaded, k, n, name);
    hide LinksOk, ZeroTail, Put;
    RelinkedFiles(v1, n, 1);
  }

  /** sfs_dir_unlink followed by the decrement of the link count. */
  lemma TreeUnlinked(v: Volume, v1: Volume, k: nat, loaded: set<nat>)
    requires Tree(v, loaded) && k < |Dir(v)| && Used(Dir(v)[k]) && Dir(v)[k].ino in loaded
    requires SlotWritten(v, v1, k, EncodeSlot(NOINO, []))
    ensures var n := Dir(v)[k].ino;
            && n in v1.inodes && v1.inodes[n].linkcount > 0
            && var v2 := v1.(inodes := Relinked(v1.inodes, n, -1));
               && Tree(v2, loaded) && Dir(v2) == Dir(v)[k := Slot(NOINO, [])] && Files(v2) == Files(v)
               && Names(Dir(v2)) == Names(Dir(v)) - {Dir(v)[k].name}
  {
    DecodeEncodeSlot(NOINO, []);
    hide EncodeSlot, DecodeSlot, Contents, Slots, Names, SlotWritten, Files;
    var n := Dir(v)[k].ino;
    SlotDir(v, v1, k, EncodeSlot(NOINO, []));
    SameCountsOk(Dir(v), v.inodes, loaded, v1.inodes);
    UnlinkedOk(Dir(v), v1.inodes, loaded, k);
    hide LinksOk, ZeroTail;
    RelinkedFiles(v1, n, -1);
  }

  /** A directory write that failed has changed nothing but the block map. */
  lemma SlotFailed(v: Volume, v': Volume, k: nat, loaded: set<nat>)
    requires Tree(v, loaded) && k <= |Dir(v)| && SlotWritten(v, v', k, [])
    ensures SameTree(v, v')
  {
    assert ROOT_LOCATION in v.inodes;
    var c := Contents(v, ROOT_LOCATION);
    assert WriteAt(c, 64 * k, []) == c;
    assert SameBut(v, v', ROOT_LOCATION);
  }

  /** A slot in an unmapped block of the directory is free. */
  lemma UnmappedSlot(v: Volume, k: nat)
    requires ROOT_LOCATION in v.inodes && k < |Dir(v)| && Mapped(v, ROOT_LOCATION, 64 * k / 512) == 0
    ensures !Used(Dir(v)[k])
  {
    var c := Contents(v, ROOT_LOCATION);
    var b := c[64 * k..64 * k + 64];
    forall i | 0 <= i < 4 ensures b[i] == 0 {
      assert (64 * k + i) / 512 == 64 * k / 512;
      assert FileByte(v, ROOT_LOCATION, 64 * k + i) == 0;
    }
    assert WordAt(b, 0) == 0;
  }
}
