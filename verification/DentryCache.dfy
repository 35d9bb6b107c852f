/** The directory-entry cache: resolving a path through cached entries against resolving every segment
    in the file system. */
module DentryCache {
  import opened Wrappers
  import opened Paths

  type Inode = nat

  /** A file system's lookup of a name in a directory. */
  type Lookup = (Inode, string) -> Option<Inode>

  /** The path resolved without a cache. */
  function Resolve(lookup: Lookup, from: Inode, segs: seq<string>): Option<Inode>
    decreases |segs|
  {
    if segs == [] then Some(from)
    else
      match lookup(from, segs[0])
      case None => None
      case Some(next) => Resolve(lookup, next, segs[1..])
  }

  lemma {:induction false} ResolveOn(lookup: Lookup, from: Inode, segs: seq<string>, i: nat)
    requires i < |segs|
    ensures Resolve(lookup, from, segs[i..]) ==
      match lookup(from, segs[i])
      case None => None
      case Some(next) => Resolve(lookup, next, segs[i + 1..])
  {
    assert segs[i..][0] == segs[i] && segs[i..][1..] == segs[i + 1..];
  }

  lemma ResolveDone(lookup: Lookup, from: Inode)
    ensures Resolve(lookup, from, []) == Some(from)
  {
  }

  lemma {:induction false} ResolveSnoc(lookup: Lookup, from: Inode, segs: seq<string>, s: string, at: Inode)
    requires Resolve(lookup, from, segs) == Some(at)
    ensures Resolve(lookup, from, segs + [s]) == lookup(at, s)
    decreases |segs|
  {
    var all := segs + [s];
    if segs == [] {
      assert all[0] == s && all[1..] == [];
    } else {
      assert all[0] == segs[0] && all[1..] == segs[1..] + [s];
      ResolveSnoc(lookup, lookup(from, segs[0]).value, segs[1..], s, at);
    }
  }

  class DEntry {
    const name: string
    const inode: Inode
    const parent: DEntry?
    var children: map<string, DEntry>

    /** The root of the mount this entry belongs to, and the segments from there. */
    ghost const top: DEntry?
    ghost const segs: seq<string>

    constructor Root(inode: Inode)
      ensures this.inode == inode && name == "/" && parent == null && children == map[] && top == this && segs == []
    {
      this.inode := inode;
      name := "/";
      parent := null;
      children := map[];
      top := this;
      segs := [];
    }

    constructor Child(name: string, inode: Inode, parent: DEntry)
      ensures this.inode == inode && this.name == name && this.parent == parent && children == map[]
      ensures top == parent.top && segs == parent.segs + [name]
    {
      this.inode := inode;
      this.name := name;
      this.parent := parent;
      children := map[];
      top := parent.top;
      segs := parent.segs + [name];
    }
  }

  /** The cached entries with their children. */
  type Cache = map<DEntry, map<string, DEntry>>

  /** A cached child knows its parent and the name it is cached under. */
  ghost predicate ChildOk(cache: Cache, d: DEntry, s: string)
    requires d in cache && s in cache[d]
  {
    var c := cache[d][s];
    c in cache && c.parent == d && c.name == s
  }

  ghost predicate ChildrenOk(cache: Cache)
  {
    forall d, s :: d in cache && s in cache[d] ==> ChildOk(cache, d, s)
  }

  /** Every cached child is what the file system's lookup gives. */
  ghost predicate Agrees(lookup: Lookup, cache: Cache)
  {
    forall d, s :: d in cache && s in cache[d] ==> lookup(d.inode, s) == Some(cache[d][s].inode)
  }

  /** An entry without a parent is the root of a mount; any other is a child of its parent. */
  ghost predicate EntryOk(cache: Cache, d: DEntry)
  {
    if d.parent == null then d.top == d && d.segs == []
    else
      && d.parent in cache && d.top == d.parent.top && d.segs == d.parent.segs + [d.name]
      && GoodSegment(d.name) && d.name in cache[d.parent] && cache[d.parent][d.name] == d
  }

  ghost predicate EntriesOk(cache: Cache)
  {
    forall d :: d in cache ==> EntryOk(cache, d)
  }

  /** An entry is determined by its mount and its path. */
  ghost predicate Unique(cache: Cache)
  {
    forall d, e :: d in cache && e in cache && d.top == e.top && d.segs == e.segs ==> d == e
  }

  ghost predicate MountsOk(mounts: map<string, DEntry>, cache: Cache)
  {
    "/" in mounts && forall k :: k in mounts ==> mounts[k] in cache && mounts[k].parent == null
  }

  // The predicates above speak of each other's entries, so they are unfolded one entry at a time.

  lemma ChildAt(cache: Cache, d: DEntry, s: string)
    requires ChildrenOk(cache) && d in cache && s in cache[d]
    ensures ChildOk(cache, d, s)
  {
    hide ChildOk;
  }

  lemma EntryAt(cache: Cache, d: DEntry)
    requires EntriesOk(cache) && d in cache
    ensures EntryOk(cache, d)
  {
    hide EntryOk;
  }

  lemma SameEntry(cache: Cache, d: DEntry, e: DEntry)
    requires Unique(cache) && d in cache && e in cache && d.top == e.top && d.segs == e.segs
    ensures d == e
  {
  }

  lemma MountRoot(mounts: map<string, DEntry>, cache: Cache, k: string)
    requires MountsOk(mounts, cache)
    ensures "/" in mounts && (k in mounts ==> mounts[k] in cache && mounts[k].parent == null)
  {
  }

  // ---------------------------------------------------------------- walking the cache

  /** The entry that cached children lead to. */
  ghost function Walk(cache: Cache, d: DEntry, segs: seq<string>): Option<DEntry>
    requires ChildrenOk(cache) && d in cache
    decreases |segs|
  {
    if segs == [] then Some(d)
    else if segs[0] !in cache[d] then None
    else ChildAt(cache, d, segs[0]); Walk(cache, cache[d][segs[0]], segs[1..])
  }

  /** What resolving through the cache gives: cached children as long as there are, then lookups. */
  ghost function Answer(lookup: Lookup, cache: Cache, d: DEntry, segs: seq<string>): Option<Inode>
    requires ChildrenOk(cache) && d in cache
    decreases |segs|
  {
    if segs == [] then Some(d.inode)
    else if segs[0] !in cache[d] then Resolve(lookup, d.inode, segs)
    else ChildAt(cache, d, segs[0]); Answer(lookup, cache, cache[d][segs[0]], segs[1..])
  }

  lemma AnswerOn(lookup: Lookup, cache: Cache, d: DEntry, segs: seq<string>, i: nat)
    requires ChildrenOk(cache) && d in cache && i < |segs|
    ensures segs[i] in cache[d] ==> cache[d][segs[i]] in cache
    ensures Answer(lookup, cache, d, segs[i..]) ==
      if segs[i] in cache[d] then Answer(lookup, cache, cache[d][segs[i]], segs[i + 1..]) else Resolve(lookup, d.inode, segs[i..])
  {
    hide ChildrenOk, Resolve;
    if segs[i] in cache[d] { ChildAt(cache, d, segs[i]); }
    assert segs[i..][0] == segs[i] && segs[i..][1..] == segs[i + 1..];
  }

  lemma AnswerDone(lookup: Lookup, cache: Cache, d: DEntry)
    requires ChildrenOk(cache) && d in cache
    ensures Answer(lookup, cache, d, []) == Some(d.inode)
  {
  }

  lemma {:induction false} WalkSnoc(cache: Cache, d: DEntry, segs: seq<string>, e: DEntry, s: string)
    requires ChildrenOk(cache) && d in cache && Walk(cache, d, segs) == Some(e) && e in cache && s in cache[e]
    ensures Walk(cache, d, segs + [s]) == Some(cache[e][s])
    decreases |segs|
  {
    hide ChildrenOk;
    var all := segs + [s];
    if segs == [] {
      assert all[0] == s && all[1..] == [];
    } else {
      assert all[0] == segs[0] && all[1..] == segs[1..] + [s];
      ChildAt(cache, d, segs[0]);
      WalkSnoc(cache, cache[d][segs[0]], segs[1..], e, s);
    }
  }

  /** The cached children lead from the root of its mount to every cached entry. */
  lemma {:induction false} EntryWalk(cache: Cache, d: DEntry)
    requires ChildrenOk(cache) && EntriesOk(cache) && d in cache
    ensures d.top != null && d.top in cache && GoodSegments(d.segs) && Walk(cache, d.top, d.segs) == Some(d)
    decreases |d.segs|
  {
    hide ChildrenOk, EntriesOk, GoodSegment;
    EntryAt(cache, d);
    if d.parent != null {
      EntryWalk(cache, d.parent);
      WalkSnoc(cache, d.top, d.parent.segs, d.parent, d.name);
    }
  }

  /** A path that is cached to its end is answered from the cache, whatever the file system now holds. */
  lemma {:induction false} WalkAnswers(lookup: Lookup, cache: Cache, d: DEntry, segs: seq<string>)
    requires ChildrenOk(cache) && d in cache && Walk(cache, d, segs).Some?
    ensures Answer(lookup, cache, d, segs) == Some(Walk(cache, d, segs).value.inode)
    decreases |segs|
  {
    hide ChildrenOk, Resolve;
    if segs != [] {
      ChildAt(cache, d, segs[0]);
      WalkAnswers(lookup, cache, cache[d][segs[0]], segs[1..]);
    }
  }

  /** The cached children that `segs` passes are what the lookup gives. */
  ghost predicate Fresh(lookup: Lookup, cache: Cache, d: DEntry, segs: seq<string>)
    requires ChildrenOk(cache) && d in cache
    decreases |segs|
  {
    segs != [] && segs[0] in cache[d] ==>
      (ChildAt(cache, d, segs[0]);
       var c := cache[d][segs[0]];
       lookup(d.inode, segs[0]) == Some(c.inode) && Fresh(lookup, cache, c, segs[1..]))
  }

  ghost predicate Transparent(lookup: Lookup, cache: Cache, d: DEntry, segs: seq<string>)
    requires ChildrenOk(cache) && d in cache
  {
    Answer(lookup, cache, d, segs) == Resolve(lookup, d.inode, segs)
  }

  lemma {:induction false} FreshTransparent(lookup: Lookup, cache: Cache, d: DEntry, segs: seq<string>, n: nat)
    requires ChildrenOk(cache) && d in cache && Fresh(lookup, cache, d, segs) && n <= |segs|
    ensures Transparent(lookup, cache, d, segs[..n])
    decreases |segs|
  {
    hide ChildrenOk;
    var front := segs[..n];
    if n > 0 && segs[0] in cache[d] {
      ChildAt(cache, d, segs[0]);
      FreshTransparent(lookup, cache, cache[d][segs[0]], segs[1..], n - 1);
      assert front[0] == segs[0] && front[1..] == segs[1..][..n - 1];
    }
  }

  lemma {:induction false} TransparentFresh(lookup: Lookup, cache: Cache, d: DEntry, segs: seq<string>)
    requires ChildrenOk(cache) && d in cache
    requires forall n :: 0 <= n <= |segs| ==> Transparent(lookup, cache, d, segs[..n])
    ensures Fresh(lookup, cache, d, segs)
    decreases |segs|
  {
    hide ChildrenOk;
    if segs != [] && segs[0] in cache[d] {
      ChildAt(cache, d, segs[0]);
      var c, rest := cache[d][segs[0]], segs[1..];
      assert Transparent(lookup, cache, d, segs[..1]);
      OneSegment(lookup, cache, d, segs[0]);
      assert segs[..1] == [segs[0]];
      forall n | 0 <= n <= |rest| ensures Transparent(lookup, cache, c, rest[..n]) {
        var front := segs[..n + 1];
        assert Transparent(lookup, cache, d, front);
        assert front[0] == segs[0] && front[1..] == rest[..n];
      }
      TransparentFresh(lookup, cache, c, rest);
    }
  }

  lemma OneSegment(lookup: Lookup, cache: Cache, d: DEntry, s: string)
    requires ChildrenOk(cache) && d in cache && s in cache[d]
    ensures Answer(lookup, cache, d, [s]) == Some(cache[d][s].inode) && Resolve(lookup, d.inode, [s]) == lookup(d.inode, s)
  {
    hide ChildrenOk;
    ChildAt(cache, d, s);
    assert [s][1..] == [];
  }

  /** Nothing is ever removed from the cache. After the file system has changed, resolving through it
      still gives what lookups give, on a path and on the directories along it, exactly when every cached
      child on the path is still there. */
  lemma StaleExact(lookup: Lookup, cache: Cache, d: DEntry, segs: seq<string>)
    requires ChildrenOk(cache) && d in cache
    ensures (forall n :: 0 <= n <= |segs| ==> Transparent(lookup, cache, d, segs[..n])) <==> Fresh(lookup, cache, d, segs)
  {
    hide ChildrenOk, Transparent, Fresh;
    if Fresh(lookup, cache, d, segs) {
      forall n | 0 <= n <= |segs| ensures Transparent(lookup, cache, d, segs[..n]) {
        FreshTransparent(lookup, cache, d, segs, n);
      }
    }
    if forall n :: 0 <= n <= |segs| ==> Transparent(lookup, cache, d, segs[..n]) {
      TransparentFresh(lookup, cache, d, segs);
    }
  }

  /** A cache that agrees with the file system is transparent on every path. */
  lemma {:induction false} AgreesFresh(lookup: Lookup, cache: Cache, d: DEntry, segs: seq<string>)
    requires ChildrenOk(cache) && Agrees(lookup, cache) && d in cache
    ensures Fresh(lookup, cache, d, segs)
    decreases |segs|
  {
    hide ChildrenOk;
    if segs != [] && segs[0] in cache[d] {
      ChildAt(cache, d, segs[0]);
      AgreesFresh(lookup, cache, cache[d][segs[0]], segs[1..]);
    }
  }

  lemma AgreesTransparent(lookup: Lookup, cache: Cache, d: DEntry, segs: seq<string>)
    requires ChildrenOk(cache) && Agrees(lookup, cache) && d in cache
    ensures Answer(lookup, cache, d, segs) == Resolve(lookup, d.inode, segs)
  {
    hide ChildrenOk, Agrees, Fresh, Answer, Resolve;
    AgreesFresh(lookup, cache, d, segs);
    FreshTransparent(lookup, cache, d, segs, |segs|);
    assert segs[..|segs|] == segs;
  }

  /** Every cached entry is what its path resolves to without the cache. */
  lemma EntryResolves(lookup: Lookup, cache: Cache, d: DEntry)
    requires ChildrenOk(cache) && Agrees(lookup, cache) && EntriesOk(cache) && d in cache
    ensures d.top != null && Resolve(lookup, d.top.inode, d.segs) == Some(d.inode)
  {
    hide ChildrenOk, Agrees, EntriesOk, Answer, Resolve, Walk;
    EntryWalk(cache, d);
    WalkAnswers(lookup, cache, d.top, d.segs);
    AgreesTransparent(lookup, cache, d.top, d.segs);
  }

  // ---------------------------------------------------------------- growing the cache

  /** A child that is not cached has no entry anywhere. */
  lemma NotCached(cache: Cache, d: DEntry, s: string)
    requires EntriesOk(cache) && Unique(cache) && d in cache && s !in cache[d]
    ensures forall e :: e in cache && e.top == d.top ==> e.segs != d.segs + [s]
  {
    hide EntriesOk, Unique;
    forall e | e in cache && e.top == d.top ensures e.segs != d.segs + [s] {
      EntryAt(cache, e);
      if e.parent != null && e.parent.segs == d.segs { SameEntry(cache, e.parent, d); }
      assert e.parent != null ==> e.segs[..|e.segs| - 1] == e.parent.segs && e.segs[|e.segs| - 1] == e.name;
      assert (d.segs + [s])[..|d.segs|] == d.segs && (d.segs + [s])[|d.segs|] == s;
    }
  }

  /** The cache with a new child `c` of `d`. */
  ghost function WithChild(cache: Cache, d: DEntry, s: string, c: DEntry): Cache
    requires d in cache
  {
    cache[d := cache[d][s := c]][c := map[]]
  }

  ghost predicate NewChild(cache: Cache, d: DEntry, s: string, c: DEntry)
  {
    && d in cache && s !in cache[d] && c !in cache && GoodSegment(s)
    && c.parent == d && c.name == s && c.top == d.top && c.segs == d.segs + [s]
  }

  lemma UniqueMore(cache: Cache, d: DEntry, s: string, c: DEntry)
    requires Unique(cache) && EntriesOk(cache) && NewChild(cache, d, s, c)
    ensures Unique(WithChild(cache, d, s, c))
  {
    hide EntriesOk;
    NotCached(cache, d, s);
  }

  lemma EntriesMore(cache: Cache, d: DEntry, s: string, c: DEntry)
    requires EntriesOk(cache) && NewChild(cache, d, s, c)
    ensures EntriesOk(WithChild(cache, d, s, c))
  {
    hide EntriesOk;
    var more := WithChild(cache, d, s, c);
    forall e | e in more ensures EntryOk(more, e) {
      if e != c {
        EntryAt(cache, e);
        EntryKept(cache, d, s, c, e);
      }
    }
    AllEntries(more);
  }

  lemma AllEntries(cache: Cache)
    requires forall d :: d in cache ==> EntryOk(cache, d)
    ensures EntriesOk(cache)
  {
    hide EntryOk;
  }

  lemma MountsMore(mounts: map<string, DEntry>, cache: Cache, d: DEntry, s: string, c: DEntry)
    requires MountsOk(mounts, cache) && d in cache
    ensures MountsOk(mounts, WithChild(cache, d, s, c))
  {
  }

  lemma EntryKept(cache: Cache, d: DEntry, s: string, c: DEntry, e: DEntry)
    requires NewChild(cache, d, s, c) && e in cache && EntryOk(cache, e)
    ensures EntryOk(WithChild(cache, d, s, c), e)
  {
  }

  lemma ChildrenMore(cache: Cache, d: DEntry, s: string, c: DEntry)
    requires ChildrenOk(cache) && NewChild(cache, d, s, c)
    ensures ChildrenOk(WithChild(cache, d, s, c))
  {
    hide ChildrenOk;
    var more := WithChild(cache, d, s, c);
    forall e, k | e in more && k in more[e] ensures ChildOk(more, e, k) {
      if e != c && !(e == d && k == s) { ChildAt(cache, e, k); }
    }
    AllChildren(more);
  }

  lemma AllChildren(cache: Cache)
    requires forall d, s :: d in cache && s in cache[d] ==> ChildOk(cache, d, s)
    ensures ChildrenOk(cache)
  {
    hide ChildOk;
  }

  lemma AgreesMore(lookup: Lookup, cache: Cache, d: DEntry, s: string, c: DEntry)
    requires Agrees(lookup, cache) && NewChild(cache, d, s, c) && lookup(d.inode, s) == Some(c.inode)
    ensures Agrees(lookup, WithChild(cache, d, s, c))
  {
  }

  lemma FreshMounts(lookup: Lookup, fat: DEntry, dev: DEntry)
    requires fat != dev && fat.parent == null && fat.top == fat && fat.segs == []
    requires dev.parent == null && dev.top == dev && dev.segs == []
    ensures var cache: Cache := map[fat := map[], dev := map[]];
      && MountsOk(map["/" := fat, "/dev" := dev], cache) && ChildrenOk(cache) && EntriesOk(cache) && Unique(cache)
      && Agrees(lookup, cache)
  {
    hide EntryOk, ChildOk;
    var cache: Cache := map[fat := map[], dev := map[]];
    assert forall d :: d in cache ==> d == fat || d == dev;
    RootEntry(cache, fat);
    RootEntry(cache, dev);
    assert fat in cache && dev in cache;
  }

  lemma RootEntry(cache: Cache, d: DEntry)
    requires d.parent == null && d.top == d && d.segs == []
    ensures EntryOk(cache, d)
  {
  }

  class Vfs {
    var lookup: Lookup
    const mounts: map<string, DEntry>
    ghost var cache: Cache

    ghost predicate Valid()
      reads this, cache.Keys
    {
      && MountsOk(mounts, cache) && ChildrenOk(cache) && EntriesOk(cache) && Unique(cache)
      && forall d :: d in cache ==> d.children == cache[d]
    }

    /** The FAT32 volume at "/" and the devices at "/dev". */
    constructor InitVfs(lookup: Lookup, fatRoot: Inode, devRoot: Inode)
      ensures Valid() && Agrees(lookup, cache) && this.lookup == lookup && mounts.Keys == {"/", "/dev"}
      ensures mounts["/"].inode == fatRoot && mounts["/dev"].inode == devRoot
    {
      var fat := new DEntry.Root(fatRoot);
      var dev := new DEntry.Root(devRoot);
      this.lookup := lookup;
      mounts := map["/" := fat, "/dev" := dev];
      cache := map[fat := map[], dev := map[]];
      new;
      hide Unique, EntriesOk, ChildrenOk, MountsOk, Agrees;
      FreshMounts(lookup, fat, dev);
    }

    /** Deleting, renaming and making files change what lookups give, and no cached entry. */
    method ChangeFiles(now: Lookup)
      requires Valid()
      modifies `lookup
      ensures Valid() && lookup == now
    {
      lookup := now;
    }

    method AddChild(current: DEntry, segment: string, inode: Inode) returns (dentry: DEntry)
      requires Valid() && current in cache && segment !in current.children && GoodSegment(segment)
      modifies `cache, current
      ensures Valid() && fresh(dentry) && dentry in cache && cache[dentry] == map[] && cache.Keys == old(cache.Keys) + {dentry}
      ensures dentry.inode == inode && dentry.top == current.top && dentry.segs == current.segs + [segment]
      ensures old(Agrees(lookup, cache)) && lookup(current.inode, segment) == Some(inode) ==> Agrees(lookup, cache)
    {
      hide Unique, EntriesOk, ChildrenOk, MountsOk, Agrees;
      dentry := new DEntry.Child(segment, inode, current);
      UniqueMore(cache, current, segment, dentry);
      EntriesMore(cache, current, segment, dentry);
      ChildrenMore(cache, current, segment, dentry);
      MountsMore(mounts, cache, current, segment, dentry);
      if Agrees(lookup, cache) && lookup(current.inode, segment) == Some(inode) {
        AgreesMore(lookup, cache, current, segment, dentry);
      }
      current.children := current.children[segment := dentry];
      cache := WithChild(cache, current, segment, dentry);
    }

    /** One segment: the cached child, or a lookup whose result is cached. */
    method Step(current: DEntry, segment: string) returns (r: Option<DEntry>)
      requires Valid() && current in cache && GoodSegment(segment)
      modifies `cache, current
      ensures Valid() && old(cache.Keys) <= cache.Keys && fresh(cache.Keys - old(cache.Keys))
      ensures old(Agrees(lookup, cache)) ==> Agrees(lookup, cache)
      ensures r.Some? ==> r.value in cache && r.value.top == current.top && r.value.segs == current.segs + [segment]
      ensures segment in old(cache)[current] ==> r == Some(old(cache)[current][segment]) && cache == old(cache)
      ensures segment !in old(cache)[current] ==>
        && (r.Some? <==> lookup(current.inode, segment).Some?)
        && (r.Some? ==> lookup(current.inode, segment) == Some(r.value.inode) && cache[r.value] == map[])
    {
      hide Unique, EntriesOk, ChildrenOk, MountsOk, Agrees;
      if segment in current.children {
        ChildAt(cache, current, segment);
        EntryAt(cache, current.children[segment]);
        return Some(current.children[segment]);
      }
      var found := lookup(current.inode, segment);
      if found.None? {
        return None;
      }
      var dentry := AddChild(current, segment, found.value);
      r := Some(dentry);
    }

    /** Collects the names from the entry up to the root of its mount. */
    method FullPath(d: DEntry) returns (path: string)
      requires Valid() && d in cache
      ensures path == FullPathOf(d.segs)
    {
      hide Unique, EntriesOk, ChildrenOk, MountsOk, Reversed, Join, GoodSegment;
      var curr, segments := d, [];
      EntryAt(cache, curr);
      ReversedNothing();
      while curr.parent != null
        invariant curr in cache && EntryOk(cache, curr)
        invariant d.segs == curr.segs + Reversed(segments)
        decreases |curr.segs|
      {
        ReversedSnoc(segments, curr.name);
        ConcatAssociative(curr.parent.segs, [curr.name], Reversed(segments));
        segments := segments + [curr.name];
        curr := curr.parent;
        EntryAt(cache, curr);
      }
      ReversedSnoc(segments, curr.name);
      assert d.segs == Reversed(segments) == ([curr.name] + Reversed(segments))[1..];
      segments := segments + [curr.name];
      path := [SLASH] + Join(Reversed(segments)[1..]);
    }

    /** Follows segments from the root of a mount: cached children as far as there are, then lookups,
        which it caches. */
    method Descend(root: DEntry, segs: seq<string>) returns (r: Option<DEntry>)
      requires Valid() && root in cache && root.parent == null && GoodSegments(segs)
      modifies `cache, cache.Keys
      ensures Valid() && old(cache.Keys) <= cache.Keys && fresh(cache.Keys - old(cache.Keys))
      ensures old(Agrees(lookup, cache)) ==> Agrees(lookup, cache)
      ensures ChildrenOk(old(cache))
      ensures Answer(lookup, old(cache), root, segs) == (if r.Some? then Some(r.value.inode) else None)
      ensures r.Some? ==> r.value in cache && r.value.top == root && r.value.segs == segs
    {
      hide Unique, EntriesOk, ChildrenOk, MountsOk, Resolve, Answer, GoodSegment, Agrees;
      var current := root;
      EntryAt(cache, current);
      assert segs[0..] == segs;
      ghost var was, missed := cache, false;
      for i := 0 to |segs|
        invariant Valid() && current in cache && old(cache.Keys) <= cache.Keys && fresh(cache.Keys - old(cache.Keys))
        invariant old(Agrees(lookup, cache)) ==> Agrees(lookup, cache)
        invariant current.top == root && current.segs == segs[..i]
        invariant if missed then cache[current] == map[] else cache == was
        invariant Answer(lookup, was, root, segs) ==
          if missed then Resolve(lookup, current.inode, segs[i..]) else Answer(lookup, was, current, segs[i..])
      {
        if !missed { AnswerOn(lookup, was, current, segs, i); }
        ResolveOn(lookup, current.inode, segs, i);
        assert segs[..i + 1] == segs[..i] + [segs[i]];
        missed := segs[i] !in cache[current];
        var child := Step(current, segs[i]);
        if child.None? {
          return None;
        }
        current := child.value;
      }
      assert segs[..|segs|] == segs;
      assert segs[|segs|..] == [];
      ResolveDone(lookup, current.inode);
      if !missed { AnswerDone(lookup, was, current); }
      r := Some(current);
    }

    /** Resolves a path in the mount that serves it. */
    method FindDentry(path: string, cwd: DEntry) returns (r: Option<DEntry>, ghost key: string)
      requires Valid() && cwd in cache
      modifies `cache, cache.Keys
      ensures Valid() && old(cache.Keys) <= cache.Keys && fresh(cache.Keys - old(cache.Keys))
      ensures old(Agrees(lookup, cache)) ==> Agrees(lookup, cache)
      ensures var p := AbsolutePath(path, FullPathOf(cwd.segs));
        && IsMountKey(mounts, p, key) && key in mounts && mounts[key] in old(cache) && ChildrenOk(old(cache))
        && var segs := Segments(RelPath(p, key));
        && Answer(lookup, old(cache), mounts[key], segs) == (if r.Some? then Some(r.value.inode) else None)
        && (r.Some? ==> r.value in cache && r.value.top == mounts[key] && r.value.segs == segs)
    {
      hide Unique, EntriesOk, ChildrenOk, MountsOk, IsMountKey, Split, AbsolutePath, RelPath, Resolve, Answer, GoodSegment, Agrees;
      var cwdPath := FullPath(cwd);
      MountRoot(mounts, cache, "/");
      var p := AbsolutePath(path, cwdPath);
      var mp := FindMountpoint(mounts, p);
      key := mp;
      MountRoot(mounts, cache, mp);
      SplitGood(RelPath(p, mp), "");
      r := Descend(mounts[mp], Segments(RelPath(p, mp)));
    }

    /** Any sequence of lookups, each seeing the cache the ones before it left, answers as if there
        were no cache, as long as the files stay as they are. */
    method FindAll(paths: seq<string>, cwd: DEntry) returns (r: seq<Option<Inode>>)
      requires Valid() && Agrees(lookup, cache) && cwd in cache
      modifies `cache, cache.Keys
      ensures Valid() && Agrees(lookup, cache) && |r| == |paths|
      ensures forall i :: 0 <= i < |paths| ==>
        Uncached(lookup, mounts, AbsolutePath(paths[i], FullPathOf(cwd.segs)), r[i])
    {
      hide Unique, EntriesOk, ChildrenOk, MountsOk, IsMountKey, Uncached, AbsolutePath, RelPath, Split, Resolve, Answer, Agrees;
      r := [];
      for i := 0 to |paths|
        invariant Valid() && Agrees(lookup, cache) && cwd in cache && |r| == i && fresh(cache.Keys - old(cache.Keys))
        invariant forall j :: 0 <= j < i ==>
          Uncached(lookup, mounts, AbsolutePath(paths[j], FullPathOf(cwd.segs)), r[j])
      {
        ghost var was := cache;
        var found, key := FindDentry(paths[i], cwd);
        var answer := if found.Some? then Some(found.value.inode) else None;
        AgreesTransparent(lookup, was, mounts[key], Segments(RelPath(AbsolutePath(paths[i], FullPathOf(cwd.segs)), key)));
        UncachedBy(lookup, mounts, AbsolutePath(paths[i], FullPathOf(cwd.segs)), answer, key);
        r := r + [answer];
      }
    }

    /** A path once found gives the same entry for ever, whatever happens to the files in between. */
    method FindAgain(path: string, cwd: DEntry, now: Lookup) returns (first: Option<DEntry>, second: Option<DEntry>)
      requires Valid() && cwd in cache
      modifies `lookup, `cache, cache.Keys
      ensures Valid() && lookup == now && (first.Some? ==> second == first)
    {
      hide Unique, EntriesOk, ChildrenOk, MountsOk, IsMountKey, Split, AbsolutePath, RelPath, Resolve, Answer, Walk, Agrees, GoodSegments;
      ghost var key1, key2;
      first, key1 := FindDentry(path, cwd);
      ChangeFiles(now);
      if first.Some? {
        EntryWalk(cache, first.value);
        WalkAnswers(now, cache, first.value.top, first.value.segs);
      }
      second, key2 := FindDentry(path, cwd);
      MountKeyUnique(mounts, AbsolutePath(path, FullPathOf(cwd.segs)), key1, key2);
      if first.Some? { SameEntry(cache, second.value, first.value); }
    }

    /** Looking up the full path of an entry finds that very entry, deleted since or not, exactly when the
        path does not end in white space, is served by the entry's own mount, and that mount's name has no
        segments. */
    method Reopen(d: DEntry) returns (r: Option<DEntry>, ghost key: string)
      requires Valid() && d in cache
      modifies `cache, cache.Keys
      ensures Valid() && IsMountKey(mounts, Trim(FullPathOf(d.segs)), key) && key in mounts
      ensures r == Some(d) <==> Trim(FullPathOf(d.segs)) == FullPathOf(d.segs) && mounts[key] == d.top && Segments(key) == []
    {
      hide Unique, EntriesOk, ChildrenOk, MountsOk, IsMountKey, Split, RelPath, Trim, Resolve, GoodSegments, Answer, Walk, Agrees;
      EntryWalk(cache, d);
      WalkAnswers(lookup, cache, d.top, d.segs);
      var path := FullPath(d);
      TrimShortens(path);
      r, key := FindDentry(path, d);
      ReopenedSegments(mounts, d.segs, key);
      if Segments(RelPath(Trim(path), key)) == d.segs && mounts[key] == d.top {
        SameEntry(cache, r.value, d);
      }
    }
  }

  /** The rest of a trimmed full path below its mount has the segments of the path exactly when nothing
      was trimmed and the mount has none. */
  lemma ReopenedSegments(mounts: map<string, DEntry>, segs: seq<string>, key: string)
    requires GoodSegments(segs) && IsMountKey(mounts, Trim(FullPathOf(segs)), key)
    ensures Segments(RelPath(Trim(FullPathOf(segs)), key)) == segs <==>
      Trim(FullPathOf(segs)) == FullPathOf(segs) && Segments(key) == []
  {
    hide IsMountKey, RelPath, Split, Trim, NonSlash;
    var path := FullPathOf(segs);
    var p := Trim(path);
    var above, below := Segments(key), Segments(RelPath(p, key));
    TrimShortens(path);
    FullPathSegments(segs);
    MountSegments(mounts, p, key);
    TotalConcat(above, below);
    SplitTotal(p, "");
    SplitTotal(path, "");
    SplitGood(key, "");
    if above == [] {
      assert above + below == below;
    } else {
      assert GoodSegment(above[0]);
    }
  }

  function Reversed<T>(s: seq<T>): seq<T>
  {
    if s == [] then [] else [s[|s| - 1]] + Reversed(s[..|s| - 1])
  }

  lemma ReversedNothing()
    ensures Reversed<string>([]) == []
  {
  }

  lemma ReversedSnoc(s: seq<string>, x: string)
    ensures Reversed(s + [x]) == [x] + Reversed(s)
  {
    assert (s + [x])[..|s|] == s;
  }

  lemma UncachedBy(lookup: Lookup, mounts: map<string, DEntry>, p: string, r: Option<Inode>, key: string)
    requires IsMountKey(mounts, p, key) && key in mounts
    requires r == Resolve(lookup, mounts[key].inode, Segments(RelPath(p, key)))
    ensures Uncached(lookup, mounts, p, r)
  {
    hide IsMountKey, Resolve, Split, RelPath;
  }

  /** The path is resolved in the mount that serves it, segment by segment. */
  ghost predicate Uncached(lookup: Lookup, mounts: map<string, DEntry>, p: string, r: Option<Inode>)
  {
    exists key :: IsMountKey(mounts, p, key) && key in mounts
      && r == Resolve(lookup, mounts[key].inode, Segments(RelPath(p, key)))
  }
}
