/** The file allocation table as a map from a cluster to its 28-bit entry, and the
    cluster chains threaded through it. */
module FatChains {
  import opened Wrappers

  const EOC := 0x0FFF_FFFF
  const MAX_CLUSTERS := 0x0FFF_FFF0

  type Fat = f: seq<nat> | |f| <= MAX_CLUSTERS

  predicate IsEoc(v: nat) { v >= 0x0FFF_FFF8 }

  predicate IsValidNext(v: nat) { 2 <= v <= 0x0FFF_FFEF }

  /** `ch` is the list of entries visited from `ch[0]` up to the end-of-chain mark. */
  ghost predicate IsWalk(fat: Fat, ch: seq<nat>)
  {
    && |ch| > 0
    && (forall i :: 0 <= i < |ch| ==> ch[i] < |fat|)
    && (forall i :: 0 <= i < |ch| - 1 ==> fat[ch[i]] == ch[i + 1])
    && IsEoc(fat[ch[|ch| - 1]])
  }

  /** A walk that stays off the two reserved entries. */
  ghost predicate IsChain(fat: Fat, ch: seq<nat>)
  {
    IsWalk(fat, ch) && forall i :: 0 <= i < |ch| ==> 2 <= ch[i]
  }

  ghost predicate Disjoint(a: seq<nat>, b: seq<nat>)
  {
    forall i, j :: 0 <= i < |a| && 0 <= j < |b| ==> a[i] != b[j]
  }

  /** Every walk that reaches an end-of-chain mark is acyclic. */
  lemma ChainDistinct(fat: Fat, ch: seq<nat>)
    requires IsWalk(fat, ch)
    ensures Distinct(ch)
  {
    forall i, j | 0 <= i < j < |ch| ensures ch[i] != ch[j] {
      if ch[i] == ch[j] { RepeatNeverEnds(fat, ch, i, j); }
    }
  }

  lemma {:induction false} RepeatNeverEnds(fat: Fat, ch: seq<nat>, i: nat, j: nat)
    requires IsWalk(fat, ch) && i < j < |ch|
    ensures ch[i] != ch[j]
    decreases |ch| - j
  {
    if j + 1 < |ch| {
      RepeatNeverEnds(fat, ch, i + 1, j + 1);
    }
    assert fat[ch[i]] == ch[i + 1];
  }

  /** A chain is determined by its head. */
  lemma {:induction false} ChainUnique(fat: Fat, a: seq<nat>, b: seq<nat>)
    requires IsChain(fat, a) && IsChain(fat, b) && a[0] == b[0]
    ensures a == b
  {
    assert |a| > 1 ==> fat[a[0]] == a[1];
    assert |b| > 1 ==> fat[b[0]] == b[1];
    if |a| > 1 {
      TailIsChain(fat, a);
      TailIsChain(fat, b);
      ChainUnique(fat, a[1..], b[1..]);
      assert a == [a[0]] + a[1..] && b == [b[0]] + b[1..];
    }
  }

  lemma TailIsChain(fat: Fat, ch: seq<nat>)
    requires IsChain(fat, ch) && |ch| > 1
    ensures IsChain(fat, ch[1..])
  {
    var t := ch[1..];
    assert t[|t| - 1] == ch[|ch| - 1];
    forall i | 0 <= i < |t| - 1 ensures fat[t[i]] == t[i + 1] {
      assert fat[ch[i + 1]] == ch[i + 2];
    }
  }

  /** A chain lives only in its own entries, none of which is free. */
  lemma ChainFrame(fat: Fat, fat': Fat, ch: seq<nat>)
    requires IsChain(fat, ch) && |fat'| == |fat|
    requires forall i :: 0 <= i < |ch| ==> fat'[ch[i]] == fat[ch[i]]
    ensures IsChain(fat', ch)
  {
  }

  lemma ChainNotFree(fat: Fat, ch: seq<nat>, i: nat)
    requires IsChain(fat, ch) && i < |ch|
    ensures fat[ch[i]] != 0
  {
    if i < |ch| - 1 { assert fat[ch[i]] == ch[i + 1]; }
  }

  // ---------------------------------------------------------------- allocation

  /** The free clusters of the window `[lo, hi)`, lowest first: the order in which the
      driver's first-fit scan hands them out. */
  function FreeList(fat: Fat, lo: nat, hi: nat): (r: seq<nat>)
    requires hi <= |fat|
    ensures forall i :: 0 <= i < |r| ==> lo <= r[i] < hi && fat[r[i]] == 0
    decreases hi - lo
  {
    if lo >= hi then []
    else if fat[lo] == 0 then [lo] + FreeList(fat, lo + 1, hi)
    else FreeList(fat, lo + 1, hi)
  }

  /** `fat` with the clusters of `ch` linked in order and the last one marked end-of-chain. */
  function Link(fat: Fat, ch: seq<nat>): (r: Fat)
    requires forall i :: 0 <= i < |ch| ==> ch[i] < |fat|
    ensures |r| == |fat|
  {
    if |ch| == 0 then fat
    else if |ch| == 1 then fat[ch[0] := EOC]
    else
      var n := |ch| - 1;
      Link(fat, ch[..n])[ch[n - 1] := ch[n]][ch[n] := EOC]
  }

  /** `fat` with every cluster of `ch` marked free. */
  function Unlink(fat: Fat, ch: seq<nat>): (r: Fat)
    requires forall i :: 0 <= i < |ch| ==> ch[i] < |fat|
    ensures |r| == |fat|
    decreases |ch|
  {
    if |ch| == 0 then fat else Unlink(fat[ch[0] := 0], ch[1..])
  }

  lemma {:induction false} FreeListDistinct(fat: Fat, lo: nat, hi: nat)
    requires hi <= |fat|
    ensures Distinct(FreeList(fat, lo, hi))
    decreases hi - lo
  {
    if lo < hi {
      FreeListDistinct(fat, lo + 1, hi);
    }
  }

  lemma {:induction false} FreeListAscends(fat: Fat, lo: nat, hi: nat)
    requires hi <= |fat|
    ensures forall i, j :: 0 <= i < j < |FreeList(fat, lo, hi)| ==> FreeList(fat, lo, hi)[i] < FreeList(fat, lo, hi)[j]
    decreases hi - lo
  {
    if lo < hi { FreeListAscends(fat, lo + 1, hi); }
  }

  /** The free list is complete: it holds every free cluster of the window. */
  lemma {:induction false} FreeListComplete(fat: Fat, lo: nat, hi: nat, c: nat)
    requires hi <= |fat| && lo <= c < hi && fat[c] == 0
    ensures c in FreeList(fat, lo, hi)
    decreases hi - lo
  {
    if c != lo {
      FreeListComplete(fat, lo + 1, hi, c);
    }
  }

  /** `f` is `fat` with the entries of `ch` linked in order. */
  ghost predicate Linked(fat: Fat, f: Fat, ch: seq<nat>)
    requires |f| == |fat| && forall i :: 0 <= i < |ch| ==> ch[i] < |fat|
  {
    && (forall i :: 0 <= i < |ch| - 1 ==> f[ch[i]] == ch[i + 1])
    && (|ch| > 0 ==> f[ch[|ch| - 1]] == EOC)
    && (forall c :: 0 <= c < |fat| && c !in ch ==> f[c] == fat[c])
  }

  /** Entries of `Link(fat, ch)`: the successor in `ch`, the mark at the end, `fat` elsewhere. */
  lemma {:induction false} LinkEntries(fat: Fat, ch: seq<nat>)
    requires forall i :: 0 <= i < |ch| ==> ch[i] < |fat|
    requires Distinct(ch)
    ensures Linked(fat, Link(fat, ch), ch)
  {
    if |ch| > 1 {
      hide Linked;
      var n := |ch| - 1;
      LinkEntries(fat, ch[..n]);
      assert ch == ch[..n] + [ch[n]];
      LinkedSnoc(fat, Link(fat, ch[..n]), ch[..n], ch[n]);
    }
  }

  lemma LinkedSnoc(fat: Fat, f: Fat, p: seq<nat>, x: nat)
    requires |f| == |fat| && |p| > 0 && x < |fat|
    requires forall i :: 0 <= i < |p| ==> p[i] < |fat| && p[i] != x
    requires Distinct(p) && Linked(fat, f, p)
    ensures Linked(fat, f[p[|p| - 1] := x][x := EOC], p + [x])
  {
    var q := p + [x];
    assert forall c :: c !in q ==> c !in p && c != x;
  }

  lemma UnlinkNothing(fat: Fat, ch: seq<nat>)
    requires |ch| == 0
    ensures Unlink(fat, ch) == fat
  {
  }

  lemma {:induction false} UnlinkEntries(fat: Fat, ch: seq<nat>)
    requires forall i :: 0 <= i < |ch| ==> ch[i] < |fat|
    ensures forall i :: 0 <= i < |ch| ==> Unlink(fat, ch)[ch[i]] == 0
    ensures forall c :: 0 <= c < |fat| && c !in ch ==> Unlink(fat, ch)[c] == fat[c]
    decreases |ch|
  {
    if |ch| > 0 {
      var t := ch[1..];
      assert ch == [ch[0]] + t;
      var f := fat[ch[0] := 0];
      UnlinkEntries(f, t);
      if ch[0] in t {
        var k :| 0 <= k < |t| && t[k] == ch[0];
        assert Unlink(f, t)[t[k]] == 0;
      } else {
        assert Unlink(f, t)[ch[0]] == f[ch[0]];
      }
      forall i | 0 <= i < |ch| ensures Unlink(fat, ch)[ch[i]] == 0 {
        if i > 0 { assert ch[i] == t[i - 1]; }
      }
    }
  }

  /** Freeing a freshly linked chain gives back the table it was linked in. */
  lemma UnlinkLink(fat: Fat, ch: seq<nat>)
    requires forall i :: 0 <= i < |ch| ==> ch[i] < |fat| && fat[ch[i]] == 0
    requires Distinct(ch)
    ensures Unlink(Link(fat, ch), ch) == fat
  {
    LinkEntries(fat, ch);
    UnlinkEntries(Link(fat, ch), ch);
    forall c | 0 <= c < |fat| ensures Unlink(Link(fat, ch), ch)[c] == fat[c] {
      if c in ch {
        var k :| 0 <= k < |ch| && ch[k] == c;
        assert Unlink(Link(fat, ch), ch)[ch[k]] == 0;
      }
    }
  }

  lemma LinkIsChain(fat: Fat, ch: seq<nat>)
    requires |ch| > 0 && Distinct(ch)
    requires forall i :: 0 <= i < |ch| ==> 2 <= ch[i] < |fat|
    ensures IsChain(Link(fat, ch), ch)
  {
    LinkEntries(fat, ch);
  }

  /** One step of the first-fit scan: once the first free cluster is taken, and whatever
      happens to clusters that were not free, the rest of the list stays. */
  lemma {:induction false} FreeListPop(fat: Fat, fat': Fat, lo: nat, hi: nat)
    requires hi <= |fat| == |fat'| && |FreeList(fat, lo, hi)| > 0
    requires forall c :: lo <= c < hi ==>
      (fat'[c] == 0 <==> fat[c] == 0 && c != FreeList(fat, lo, hi)[0])
    ensures FreeList(fat', lo, hi) == FreeList(fat, lo, hi)[1..]
    decreases hi - lo
  {
    if fat[lo] == 0 {
      FreeListSame(fat, fat', lo + 1, hi);
    } else {
      FreeListPop(fat, fat', lo + 1, hi);
    }
  }

  lemma {:induction false} FreeListSame(fat: Fat, fat': Fat, lo: nat, hi: nat)
    requires hi <= |fat| == |fat'|
    requires forall c :: lo <= c < hi ==> (fat'[c] == 0 <==> fat[c] == 0)
    ensures FreeList(fat', lo, hi) == FreeList(fat, lo, hi)
    decreases hi - lo
  {
    if lo < hi {
      FreeListSame(fat, fat', lo + 1, hi);
    }
  }

  /** After the first `k` free clusters are linked, the scan finds the others. */
  lemma {:induction false} LinkTakes(fat: Fat, lo: nat, hi: nat, k: nat)
    requires 0 < lo && hi <= |fat| && k <= |FreeList(fat, lo, hi)|
    ensures FreeList(Link(fat, FreeList(fat, lo, hi)[..k]), lo, hi) == FreeList(fat, lo, hi)[k..]
  {
    var f := FreeList(fat, lo, hi);
    if k > 0 {
      LinkTakes(fat, lo, hi, k - 1);
      var a, b := Link(fat, f[..k - 1]), Link(fat, f[..k]);
      assert f[k - 1..][0] == f[k - 1];
      forall c | lo <= c < hi ensures b[c] == 0 <==> a[c] == 0 && c != f[k - 1] {
        LinkTakesOne(fat, lo, hi, k, c);
      }
      FreeListPop(a, b, lo, hi);
    }
  }

  lemma LinkTakesOne(fat: Fat, lo: nat, hi: nat, k: nat, c: nat)
    requires 0 < lo && hi <= |fat| && 0 < k <= |FreeList(fat, lo, hi)| && lo <= c < hi
    ensures var f := FreeList(fat, lo, hi);
      Link(fat, f[..k])[c] == 0 <==> Link(fat, f[..k - 1])[c] == 0 && c != f[k - 1]
  {
    var f := FreeList(fat, lo, hi);
    FreePrefix(fat, lo, hi, k - 1);
    FreePrefix(fat, lo, hi, k);
    assert f[..k] == f[..k - 1] + [f[k - 1]];
    LinkedNotFree(fat, f[..k - 1], c);
    LinkedNotFree(fat, f[..k], c);
  }

  lemma FreePrefix(fat: Fat, lo: nat, hi: nat, k: nat)
    requires hi <= |fat| && k <= |FreeList(fat, lo, hi)|
    ensures var f := FreeList(fat, lo, hi)[..k];
      Distinct(f) && forall i :: 0 <= i < |f| ==> lo <= f[i] < hi && fat[f[i]] == 0
  {
    FreeListDistinct(fat, lo, hi);
  }

  lemma LinkedNotFree(fat: Fat, ch: seq<nat>, c: nat)
    requires forall i :: 0 <= i < |ch| ==> 0 < ch[i] < |fat|
    requires Distinct(ch) && c < |fat|
    ensures if c in ch then Link(fat, ch)[c] != 0 else Link(fat, ch)[c] == fat[c]
  {
    LinkEntries(fat, ch);
  }

  lemma {:induction false} UnlinkSnoc(fat: Fat, ch: seq<nat>, c: nat)
    requires c < |fat| && forall i :: 0 <= i < |ch| ==> ch[i] < |fat|
    ensures Unlink(fat, ch + [c]) == Unlink(fat, ch)[c := 0]
    decreases |ch|
  {
    if |ch| > 0 {
      UnlinkSnoc(fat[ch[0] := 0], ch[1..], c);
      assert (ch + [c])[1..] == ch[1..] + [c];
    }
  }

  /** Hanging a linked list of free clusters off the end of a chain extends the chain. */
  lemma ExtendIsChain(fat: Fat, ch: seq<nat>, added: seq<nat>)
    requires IsChain(fat, ch) && |added| > 0 && Distinct(added)
    requires forall i :: 0 <= i < |added| ==> 2 <= added[i] < |fat| && fat[added[i]] == 0
    ensures IsChain(Link(fat, added)[ch[|ch| - 1] := added[0]], ch + added)
    ensures Disjoint(ch, added)
  {
    var n := |ch|;
    var fat' := Link(fat, added)[ch[n - 1] := added[0]];
    var all := ch + added;
    LinkEntries(fat, added);
    ChainDistinct(fat, ch);
    forall i | 0 <= i < n ensures ch[i] !in added { ChainNotFree(fat, ch, i); }
    forall i | 0 <= i < |all| - 1 ensures fat'[all[i]] == all[i + 1] {
      if i < n - 1 {
        assert fat[ch[i]] == ch[i + 1];
      } else if i >= n {
        assert added[i - n] != ch[n - 1];
        assert Link(fat, added)[added[i - n]] == added[i - n + 1];
      }
    }
    assert added[|added| - 1] != ch[n - 1];
  }

  // ---------------------------------------------------------------- whole runs

  /** The chains in use: each one ends, and no two share a cluster. */
  ghost predicate ChainsOk(fat: Fat, chains: seq<seq<nat>>)
  {
    && (forall k :: 0 <= k < |chains| ==> IsChain(fat, chains[k]))
    && (forall k, l :: 0 <= k < |chains| && 0 <= l < |chains| && k != l ==> Disjoint(chains[k], chains[l]))
  }

  /** What the driver does to the table: allocate a chain, lengthen one, or free one. */
  datatype Op = Alloc(n: nat) | Extend(k: nat, n: nat) | Free(k: nat)

  datatype Table = Table(fat: Fat, chains: seq<seq<nat>>)

  /** The table after the allocator linked all it found, up to `n` clusters. With fewer than `n` the
      driver then panics, and the chain it built belongs to nobody. */
  function Allocated(t: Table, free: seq<nat>, n: nat): (t': Table)
    requires forall i :: 0 <= i < |free| ==> free[i] < |t.fat|
    ensures |t'.fat| == |t.fat|
  {
    var added := free[..Min(n, |free|)];
    if added == [] then t else Table(Link(t.fat, added), t.chains + [added])
  }

  /** One operation, as the driver leaves the table, also when it panics for want of clusters. */
  function Step(t: Table, lo: nat, hi: nat, op: Op): (t': Table)
    requires hi <= |t.fat| && ChainsOk(t.fat, t.chains)
    ensures |t'.fat| == |t.fat|
  {
    var free := FreeList(t.fat, lo, hi);
    match op
    case Alloc(n) => Allocated(t, free, n)
    case Extend(k, n) =>
      if n == 0 || k >= |t.chains| then t
      else if n > |free| then Allocated(t, free, n)
      else
        var ch := t.chains[k];
        Table(Link(t.fat, free[..n])[ch[|ch| - 1] := free[0]], t.chains[k := ch + free[..n]])
    case Free(k) =>
      if k >= |t.chains| then t
      else Table(Unlink(t.fat, t.chains[k]), t.chains[..k] + t.chains[k + 1..])
  }

  lemma StepKeepsChains(t: Table, lo: nat, hi: nat, op: Op)
    requires 2 <= lo && hi <= |t.fat| && ChainsOk(t.fat, t.chains)
    ensures ChainsOk(Step(t, lo, hi, op).fat, Step(t, lo, hi, op).chains)
  {
    hide Link, Unlink, ChainsOk, FreeList;
    var free := FreeList(t.fat, lo, hi);
    match op
    case Alloc(n) => AllocatedKeeps(t, lo, hi, n);
    case Extend(k, n) =>
      if n > |free| {
        AllocatedKeeps(t, lo, hi, n);
      } else if 0 < n && k < |t.chains| {
        FreePrefix(t.fat, lo, hi, n);
        ExtendKeepsChains(t, k, free[..n]);
      }
    case Free(k) =>
      if k < |t.chains| { FreeKeepsChains(t, k); }
  }

  lemma AllocatedKeeps(t: Table, lo: nat, hi: nat, n: nat)
    requires 2 <= lo && hi <= |t.fat| && ChainsOk(t.fat, t.chains)
    ensures var t' := Allocated(t, FreeList(t.fat, lo, hi), n); ChainsOk(t'.fat, t'.chains)
  {
    hide Link, ChainsOk, FreeList;
    var free := FreeList(t.fat, lo, hi);
    FreePrefix(t.fat, lo, hi, Min(n, |free|));
    if free[..Min(n, |free|)] != [] { AllocKeepsChains(t, free[..Min(n, |free|)]); }
  }

  lemma FreshAwayFromChains(t: Table, added: seq<nat>)
    requires ChainsOk(t.fat, t.chains)
    requires forall i :: 0 <= i < |added| ==> added[i] < |t.fat| && t.fat[added[i]] == 0
    ensures forall k :: 0 <= k < |t.chains| ==> Disjoint(t.chains[k], added)
  {
    forall k, i | 0 <= k < |t.chains| && 0 <= i < |t.chains[k]| ensures t.fat[t.chains[k][i]] != 0 {
      ChainNotFree(t.fat, t.chains[k], i);
    }
  }

  lemma LinkKeepsChain(fat: Fat, added: seq<nat>, ch: seq<nat>)
    requires IsChain(fat, ch) && Disjoint(ch, added) && Distinct(added)
    requires forall i :: 0 <= i < |added| ==> added[i] < |fat|
    ensures IsChain(Link(fat, added), ch) && Disjoint(added, ch)
  {
    hide Link;
    LinkEntries(fat, added);
    ChainFrame(fat, Link(fat, added), ch);
  }

  lemma AllocKeepsChains(t: Table, added: seq<nat>)
    requires ChainsOk(t.fat, t.chains) && |added| > 0 && Distinct(added)
    requires forall i :: 0 <= i < |added| ==> 2 <= added[i] < |t.fat| && t.fat[added[i]] == 0
    ensures ChainsOk(Link(t.fat, added), t.chains + [added])
  {
    hide Link, IsChain, Disjoint;
    FreshAwayFromChains(t, added);
    LinkIsChain(t.fat, added);
    forall k | 0 <= k < |t.chains|
      ensures IsChain(Link(t.fat, added), t.chains[k]) && Disjoint(added, t.chains[k])
    {
      LinkKeepsChain(t.fat, added, t.chains[k]);
    }
  }

  lemma ExtendKeepsChains(t: Table, k: nat, added: seq<nat>)
    requires ChainsOk(t.fat, t.chains) && k < |t.chains| && |added| > 0 && Distinct(added)
    requires forall i :: 0 <= i < |added| ==> 2 <= added[i] < |t.fat| && t.fat[added[i]] == 0
    ensures var ch := t.chains[k];
      ChainsOk(Link(t.fat, added)[ch[|ch| - 1] := added[0]], t.chains[k := ch + added])
  {
    var ch := t.chains[k];
    var fat' := Link(t.fat, added)[ch[|ch| - 1] := added[0]];
    var chains' := t.chains[k := ch + added];
    FreshAwayFromChains(t, added);
    ExtendIsChain(t.fat, ch, added);
    forall l | 0 <= l < |chains'| ensures IsChain(fat', chains'[l]) {
      if l != k { ExtendKeepsOther(t, k, l, added); }
    }
    forall l | 0 <= l < |chains'| && l != k
      ensures Disjoint(chains'[l], ch + added) && Disjoint(ch + added, chains'[l])
    {
      DisjointConcat(t.chains[l], ch, added);
    }
  }

  lemma DisjointConcat(c: seq<nat>, a: seq<nat>, b: seq<nat>)
    requires Disjoint(c, a) && Disjoint(c, b)
    ensures Disjoint(c, a + b) && Disjoint(a + b, c)
  {
  }

  lemma ExtendKeepsOther(t: Table, k: nat, l: nat, added: seq<nat>)
    requires k < |t.chains| && l < |t.chains| && IsChain(t.fat, t.chains[k]) && IsChain(t.fat, t.chains[l])
    requires Disjoint(t.chains[l], t.chains[k]) && Disjoint(t.chains[l], added)
    requires |added| > 0 && Distinct(added) && forall i :: 0 <= i < |added| ==> added[i] < |t.fat|
    ensures var ch := t.chains[k];
      IsChain(Link(t.fat, added)[ch[|ch| - 1] := added[0]], t.chains[l])
  {
    var ch := t.chains[k];
    LinkEntries(t.fat, added);
    ChainFrame(t.fat, Link(t.fat, added)[ch[|ch| - 1] := added[0]], t.chains[l]);
  }

  lemma FreeKeepsChains(t: Table, k: nat)
    requires ChainsOk(t.fat, t.chains) && k < |t.chains|
    ensures ChainsOk(Unlink(t.fat, t.chains[k]), t.chains[..k] + t.chains[k + 1..])
  {
    var fat' := Unlink(t.fat, t.chains[k]);
    var chains' := t.chains[..k] + t.chains[k + 1..];
    UnlinkEntries(t.fat, t.chains[k]);
    forall l | 0 <= l < |chains'| ensures IsChain(fat', chains'[l]) {
      var m := if l < k then l else l + 1;
      assert chains'[l] == t.chains[m];
      assert Disjoint(t.chains[m], t.chains[k]);
      ChainFrame(t.fat, fat', t.chains[m]);
    }
  }

  function Run(t: Table, lo: nat, hi: nat, ops: seq<Op>): (t': Table)
    requires hi <= |t.fat| && 2 <= lo
    requires ChainsOk(t.fat, t.chains)
    ensures |t'.fat| == |t.fat|
    ensures ChainsOk(t'.fat, t'.chains)
    decreases |ops|
  {
    if ops == [] then t
    else
      StepKeepsChains(t, lo, hi, ops[0]);
      Run(Step(t, lo, hi, ops[0]), lo, hi, ops[1..])
  }
}
