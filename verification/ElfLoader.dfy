/** Loading the segments of an ELF file into a fresh address space, page by page. */
module ElfLoader {
  import opened Wrappers
  import opened Bytes

  const PAGE := 4096

  type Page = s: seq<byte> | |s| == PAGE witness seq(PAGE, _ => 0)

  /** A program header with the bytes the file holds for it; `|data|` is its file size. */
  datatype Segment = Segment(load: bool, vaddr: nat, memsz: nat, data: seq<byte>)
  {
    function StartOffset(): nat { vaddr % PAGE }

    function StartPage(): nat { vaddr / PAGE }

    function NumPages(): nat { (memsz + StartOffset() + PAGE - 1) / PAGE }

    /** The address `a` is backed by a byte of the file. */
    predicate FromFile(a: nat) { load && vaddr <= a < vaddr + memsz && a < vaddr + |data| }

    predicate Holds(a: nat) { load && vaddr <= a < vaddr + memsz }
  }

  /** The contents of the mapped pages. */
  type View = map<nat, Page>

  function Blank(): Page { seq(PAGE, _ => 0) }

  function PageOf(v: View, p: nat): Page { if p in v then v[p] else Blank() }

  /** The byte at `a` once `s` has been laid over a byte `under`. */
  function Over(s: Segment, a: nat, under: byte): byte
  {
    if s.FromFile(a) then s.data[a - s.vaddr] else under
  }

  /** The byte at `a` once all segments have been laid over `under`, a later one over an earlier one. */
  function Image(segs: seq<Segment>, a: nat, under: byte): byte
  {
    if segs == [] then under
    else Over(segs[|segs| - 1], a, Image(segs[..|segs| - 1], a, under))
  }

  function PageAfter(s: Segment, p: nat, under: Page): Page
  {
    seq(PAGE, k requires 0 <= k < PAGE => Over(s, PAGE * p + k, under[k]))
  }

  function ImagePage(segs: seq<Segment>, p: nat, under: Page): Page
  {
    seq(PAGE, k requires 0 <= k < PAGE => Image(segs, PAGE * p + k, under[k]))
  }

  /** The first `n` pages of `s`. */
  function FirstPages(s: Segment, n: nat): (r: set<nat>)
    ensures forall p :: p in r <==> s.StartPage() <= p < s.StartPage() + n
  {
    if n == 0 then {} else FirstPages(s, n - 1) + {s.StartPage() + n - 1}
  }

  /** The pages the loader visits for `s`. */
  function SegmentPages(s: Segment): set<nat>
  {
    if s.load then FirstPages(s, s.NumPages()) else {}
  }

  function AllPages(segs: seq<Segment>): set<nat>
  {
    if segs == [] then {} else AllPages(segs[..|segs| - 1]) + SegmentPages(segs[|segs| - 1])
  }

  /** `v` with the pages `ps` of segment `s` laid over it. */
  function Laid(v: View, s: Segment, ps: set<nat>): View
  {
    map p | p in v.Keys + ps :: if p in ps then PageAfter(s, p, PageOf(v, p)) else v[p]
  }

  /** `v` with whole segments laid over it. */
  function ImageView(v: View, segs: seq<Segment>): View
  {
    map p | p in v.Keys + AllPages(segs) :: ImagePage(segs, p, PageOf(v, p))
  }

  function ProgramEnd(entry: nat, segs: seq<Segment>): nat
  {
    if segs == [] then entry
    else
      var s := segs[|segs| - 1];
      var end := ProgramEnd(entry, segs[..|segs| - 1]);
      if s.load && s.vaddr + s.memsz > end then s.vaddr + s.memsz else end
  }

  datatype LoadResult = Loaded(start: nat, end: nat) | OutOfMemory

  function SaturatingSub(a: nat, b: nat): nat { if a < b then 0 else a - b }

  /** Copies into one page what the file holds for it: every byte of the page is then as `Over` says,
      and no subtraction underflows. */
  method CopyInto(s: Segment, i: nat, frame: Page) returns (r: Page)
    requires s.load && i < s.NumPages()
    ensures r == PageAfter(s, s.StartPage() + i, frame)
  {
    var offsetWithinFrame := if i == 0 then s.StartOffset() else 0;
    var offsetWithinCode := SaturatingSub(i * PAGE, s.StartOffset());
    PageOffsets(s, i);
    var remainingFileBytes := SaturatingSub(|s.data|, offsetWithinCode);
    var bytesToCopy := Min(PAGE - offsetWithinFrame, s.memsz - offsetWithinCode);
    var bytesFromFile := Min(bytesToCopy, remainingFileBytes);
    r := frame;
    if bytesFromFile > 0 {
      var chunk := s.data[offsetWithinCode..offsetWithinCode + bytesFromFile];
      SpliceAt(frame, offsetWithinFrame, chunk);
      r := Splice(frame, offsetWithinFrame, chunk);
    }
    CopiedIs(s, i, frame, r, offsetWithinFrame, offsetWithinCode, bytesFromFile);
  }

  /** Page `i` of a segment starts `offsetWithinCode` bytes into the segment, or before it. */
  lemma PageOffsets(s: Segment, i: nat)
    requires i < s.NumPages()
    ensures var inFrame, inCode := if i == 0 then s.StartOffset() else 0, SaturatingSub(i * PAGE, s.StartOffset());
      && inCode <= s.memsz && inFrame < PAGE
      && PAGE * (s.StartPage() + i) + inFrame == s.vaddr + inCode
      && (i == 0 ==> inCode == 0)
  {
    assert s.vaddr == PAGE * s.StartPage() + s.StartOffset();
  }

  lemma CopiedIs(s: Segment, i: nat, frame: Page, r: Page, inFrame: nat, inCode: nat, n: nat)
    requires s.load && inFrame < PAGE && inCode <= s.memsz && (i == 0 || inFrame == 0) && (i == 0 ==> inCode == 0)
    requires PAGE * (s.StartPage() + i) + inFrame == s.vaddr + inCode
    requires n == Min(Min(PAGE - inFrame, s.memsz - inCode), SaturatingSub(|s.data|, inCode))
    requires forall k :: 0 <= k < PAGE ==>
      r[k] == if inFrame <= k < inFrame + n then s.data[inCode + k - inFrame] else frame[k]
    ensures r == PageAfter(s, s.StartPage() + i, frame)
  {
    var a := PAGE * (s.StartPage() + i);
    forall k | 0 <= k < PAGE ensures r[k] == Over(s, a + k, frame[k]) {
      assert a + k == s.vaddr + inCode + k - inFrame;
    }
  }

  /** Every page has its own frame, and the frames still to be issued are distinct and not in use. */
  ghost predicate Mapping(pages: map<nat, nat>, frames: map<nat, Page>, supply: seq<nat>)
  {
    && (forall p :: p in pages ==> pages[p] in frames)
    && (forall p, q :: p in pages && q in pages && p != q ==> pages[p] != pages[q])
    && (forall i :: 0 <= i < |supply| ==> supply[i] in frames)
    && (forall i, p :: 0 <= i < |supply| && p in pages ==> pages[p] != supply[i])
    && (forall i, j :: 0 <= i < j < |supply| ==> supply[i] != supply[j])
  }

  ghost function Contents(pages: map<nat, nat>, frames: map<nat, Page>): View
    requires forall p :: p in pages ==> pages[p] in frames
  {
    map p | p in pages :: frames[pages[p]]
  }

  lemma MappedFrames(pages: map<nat, nat>, frames: map<nat, Page>, supply: seq<nat>)
    requires Mapping(pages, frames, supply)
    ensures forall p :: p in pages ==> pages[p] in frames
    ensures forall p :: p in pages ==> p in Contents(pages, frames) && Contents(pages, frames)[p] == frames[pages[p]]
    ensures Contents(pages, frames).Keys == pages.Keys
  {
  }

  lemma PageRewritten(pages: map<nat, nat>, frames: map<nat, Page>, supply: seq<nat>, p: nat, page: Page)
    requires Mapping(pages, frames, supply) && p in pages
    ensures Mapping(pages, frames[pages[p] := page], supply)
    ensures Contents(pages, frames[pages[p] := page]) == Contents(pages, frames)[p := page]
  {
  }

  /** The first frame of the supply holds the new page, the next ones its tables. */
  lemma PageMapped(pages: map<nat, nat>, frames: map<nat, Page>, supply: seq<nat>, k: nat, p: nat, page: Page)
    requires Mapping(pages, frames, supply) && p !in pages && 0 < k <= |supply|
    ensures Mapping(pages[p := supply[0]], frames[supply[0] := page], supply[k..])
    ensures Contents(pages[p := supply[0]], frames[supply[0] := page]) == Contents(pages, frames)[p := page]
  {
  }

  lemma FrameTaken(pages: map<nat, nat>, frames: map<nat, Page>, supply: seq<nat>)
    requires Mapping(pages, frames, supply) && supply != []
    ensures Mapping(pages, frames, supply[1..])
  {
  }

  // ---------------------------------------------------------------- what takes a frame

  /** What a frame is used for: a page, or a page table of level 1, 2 or 3. */
  datatype Node = PageNode(page: nat) | TableNode(level: nat, index: nat)

  function TableOf(level: nat, p: nat): Node
    requires 1 <= level <= 3
  {
    TableNode(level, if level == 1 then p / 512 else if level == 2 then p / 512 / 512 else p / 512 / 512 / 512)
  }

  /** A table of level 1, 2 or 3 serves the addresses of one stretch of 2 MiB, 1 GiB or 512 GiB. */
  lemma TableSpan(a: nat)
    ensures TableOf(1, a / 4096) == TableNode(1, a / 0x20_0000)
    ensures TableOf(2, a / 4096) == TableNode(2, a / 0x4000_0000)
    ensures TableOf(3, a / 4096) == TableNode(3, a / 0x80_0000_0000)
  {
  }

  /** The tables on the way to a page. */
  function Tables(p: nat): set<Node> { {TableOf(3, p), TableOf(2, p), TableOf(1, p)} }

  function Nodes(p: nat): set<Node> { {PageNode(p)} + Tables(p) }

  ghost function NodesOf(ps: set<nat>): set<Node> { set p, n | p in ps && n in Nodes(p) :: n }

  /** The tables of the levels above `level`. */
  function FromLevel(p: nat, level: nat): set<Node>
  {
    (if level < 3 then {TableOf(3, p)} else {}) + (if level < 2 then {TableOf(2, p)} else {})
    + (if level < 1 then {TableOf(1, p)} else {})
  }

  lemma Levels(p: nat, level: nat)
    requires level <= 3
    ensures FromLevel(p, 3) == {} && FromLevel(p, 0) == Tables(p) && FromLevel(p, level) <= Tables(p)
    ensures level > 0 ==>
      TableOf(level, p) in Tables(p) && FromLevel(p, level - 1) == FromLevel(p, level) + {TableOf(level, p)}
  {
    hide TableOf;
  }

  /** Only tables, and those that lead to every mapped page. */
  ghost predicate TablesOk(pages: map<nat, nat>, tables: set<Node>)
  {
    (forall n :: n in tables ==> n.TableNode?) && forall p :: p in pages ==> Tables(p) <= tables
  }

  lemma TableAdded(pages: map<nat, nat>, tables: set<Node>, p: nat, level: nat)
    requires TablesOk(pages, tables) && 1 <= level <= 3
    ensures TablesOk(pages, tables + {TableOf(level, p)})
  {
    hide Tables;
  }

  lemma PageAdded(pages: map<nat, nat>, tables: set<Node>, p: nat, frame: nat)
    requires TablesOk(pages, tables) && Tables(p) <= tables
    ensures TablesOk(pages[p := frame], tables)
  {
    hide Tables;
  }

  lemma TablesAre(p: nat)
    ensures forall n :: n in Tables(p) ==> n.TableNode?
  {
  }

  ghost function HeldBy(pages: map<nat, nat>, tables: set<Node>): set<Node>
  {
    (set p | p in pages :: PageNode(p)) + tables
  }

  ghost function PageNodesOf(ps: set<nat>): set<Node> { set p | p in ps :: PageNode(p) }

  lemma {:induction false} PageNodes(ps: set<nat>)
    ensures |PageNodesOf(ps)| == |ps|
  {
    if ps == {} {
      assert PageNodesOf(ps) == {};
    } else {
      var q :| q in ps;
      var rest := ps - {q};
      PageNodes(rest);
      WithNode(rest, q);
      assert rest + {q} == ps;
    }
  }

  lemma WithNode(ps: set<nat>, q: nat)
    requires q !in ps
    ensures PageNodesOf(ps + {q}) == PageNodesOf(ps) + {PageNode(q)} && PageNode(q) !in PageNodesOf(ps)
  {
  }

  /** A frame for each page and each table. */
  lemma HeldSize(pages: map<nat, nat>, tables: set<Node>)
    requires forall n :: n in tables ==> n.TableNode?
    ensures |HeldBy(pages, tables)| == |pages.Keys| + |tables|
  {
    PageNodes(pages.Keys);
    assert (set p | p in pages :: PageNode(p)) == PageNodesOf(pages.Keys);
  }

  lemma AlreadyHeld(pages: map<nat, nat>, tables: set<Node>, page: nat)
    requires TablesOk(pages, tables) && page in pages
    ensures HeldBy(pages, tables) + Nodes(page) == HeldBy(pages, tables)
  {
    hide Tables;
  }

  lemma NowHeld(pages: map<nat, nat>, tables: set<Node>, page: nat, frame: nat)
    ensures HeldBy(pages[page := frame], tables + Tables(page)) == HeldBy(pages, tables) + Nodes(page)
  {
    hide Tables;
  }

  /** One more page: a frame for it, and one for each table it lacks. */
  lemma MoreHeld(pages: map<nat, nat>, tables: set<Node>, page: nat)
    requires page !in pages && TablesOk(pages, tables)
    ensures |HeldBy(pages, tables) + Nodes(page)| == |HeldBy(pages, tables)| + 1 + |tables + Tables(page)| - |tables|
    ensures |tables + Tables(page)| >= |tables|
  {
    hide Tables, HeldBy, Nodes;
    var more := pages[page := 0];
    TablesAre(page);
    HeldSize(pages, tables);
    HeldSize(more, tables + Tables(page));
    NowHeld(pages, tables, page, 0);
    assert more.Keys == pages.Keys + {page};
    SubsetSize(tables, tables + Tables(page));
  }

  class AddressSpace {
    var pages: map<nat, nat>
    var tables: set<Node>
    var frames: map<nat, Page>
    var supply: seq<nat>

    ghost predicate Valid()
      reads this
    {
      Mapping(pages, frames, supply) && TablesOk(pages, tables)
    }

    ghost function Mem(): View
      requires Valid()
      reads this
    {
      Contents(pages, frames)
    }

    /** The frames in use, by what they are used for. */
    ghost function Held(): set<Node>
      reads this
    {
      HeldBy(pages, tables)
    }

    /** `map_to`: allocates the tables that are missing, from the top. */
    method MakeTables(page: nat) returns (ok: bool, ghost k: nat)
      requires Valid()
      modifies this`tables, this`supply
      ensures Valid() && k <= |old(supply)| && supply == old(supply)[k..]
      ensures ok <==> |old(tables) + Tables(page)| <= |old(tables)| + |old(supply)|
      ensures ok ==> tables == old(tables) + Tables(page) && |tables| + |supply| == |old(tables)| + |old(supply)|
    {
      hide Mapping, TablesOk, TableOf, Tables, FromLevel;
      var level := 3;
      k := 0;
      Levels(page, 3);
      while level > 0
        invariant 0 <= level <= 3 && Valid() && k <= |old(supply)| && supply == old(supply)[k..]
        invariant tables == old(tables) + FromLevel(page, level) && |tables| == |old(tables)| + k
      {
        var t := TableOf(level, page);
        Levels(page, level);
        if t !in tables {
          if supply == [] {
            SubsetSize(tables + {t}, old(tables) + Tables(page));
            return false, k;
          }
          FrameTaken(pages, frames, supply);
          TableAdded(pages, tables, page, level);
          supply := supply[1..];
          tables := tables + {t};
          k := k + 1;
        }
        level := level - 1;
      }
      Levels(page, 0);
      ok := true;
    }

    method LoadPage(s: Segment, i: nat) returns (ok: bool)
      requires Valid() && s.load && i < s.NumPages()
      modifies this
      ensures Valid()
      ensures ok <==> |old(Held()) + Nodes(s.StartPage() + i)| <= |old(Held())| + |old(supply)|
      ensures ok ==> var p := s.StartPage() + i;
        && Mem() == old(Mem())[p := PageAfter(s, p, PageOf(old(Mem()), p))]
        && Held() == old(Held()) + Nodes(p) && |Held()| + |supply| == |old(Held())| + |old(supply)|
    {
      hide PageAfter, Mapping, Contents, TablesOk, Tables, HeldBy;
      ghost var before, held := Mem(), Held();
      MappedFrames(pages, frames, supply);
      var page := s.StartPage() + i;
      if page in pages {
        var frame := pages[page];
        var copied := CopyInto(s, i, frames[frame]);
        PageRewritten(pages, frames, supply, page, copied);
        frames := frames[frame := copied];
        AlreadyHeld(pages, tables, page);
        return true;
      }
      MoreHeld(pages, tables, page);
      if supply == [] {
        return false;
      }
      var frame := supply[0];
      var copied := CopyInto(s, i, Blank());
      FrameTaken(pages, frames, supply);
      supply := supply[1..];
      ghost var k;
      ok, k := MakeTables(page);
      if ok {
        PageMapped(pages, frames, old(supply), k + 1, page, copied);
        frames := frames[frame := copied];
        PageAdded(pages, tables, page, frame);
        NowHeld(pages, old(tables), page, frame);
        pages := pages[page := frame];
      }
    }

    /** Lays one segment over the address space; fails exactly when the frames do not suffice for its
        new pages and their tables. */
    method LoadSegment(s: Segment) returns (ok: bool)
      requires Valid() && s.load
      modifies this
      ensures Valid()
      ensures ok <==> |old(Held()) + NodesOf(SegmentPages(s))| <= |old(Held())| + |old(supply)|
      ensures ok ==> Mem() == Laid(old(Mem()), s, SegmentPages(s))
      ensures ok ==> Held() == old(Held()) + NodesOf(SegmentPages(s)) && |Held()| + |supply| == |old(Held())| + |old(supply)|
    {
      hide PageAfter, Valid, Mem, Held, Laid, PageOf, FirstPages, NodesOf, Nodes;
      ghost var before, held, total := Mem(), Held(), |Held()| + |supply|;
      LaidNone(before, s);
      NodesNone(s);
      var i := 0;
      while i < s.NumPages()
        invariant Valid() && i <= s.NumPages()
        invariant Mem() == Laid(before, s, FirstPages(s, i))
        invariant Held() == held + NodesOf(FirstPages(s, i)) && |Held()| + |supply| == total
      {
        NodesNext(s, i);
        ok := LoadPage(s, i);
        if !ok {
          PageMissing(s, i, held);
          return false;
        }
        LaidNext(before, s, i);
        assert held + NodesOf(FirstPages(s, i)) + Nodes(s.StartPage() + i) == held + NodesOf(FirstPages(s, i + 1));
        i := i + 1;
      }
      ok := true;
    }

    /** Loads every loadable segment. It runs out of memory exactly when the new pages and the tables
        they lack outnumber the frames; otherwise every mapped page shows the file's image. */
    method LoadElf(entry: nat, segs: seq<Segment>) returns (r: LoadResult)
      requires Valid()
      modifies this
      ensures Valid()
      ensures r.OutOfMemory? <==> |old(Held()) + NodesOf(AllPages(segs))| > |old(Held())| + |old(supply)|
      ensures r.Loaded? ==> Mem() == ImageView(old(Mem()), segs)
      ensures r.Loaded? ==> Held() == old(Held()) + NodesOf(AllPages(segs)) && |Held()| + |supply| == |old(Held())| + |old(supply)|
      ensures r.Loaded? ==> r.start == entry && r.end == ProgramEnd(entry, segs)
    {
      hide ImagePage, PageAfter, Valid, Mem, Held, Laid, PageOf, SegmentPages, AllPages, ImageView, NodesOf;
      ghost var before, held, total := Mem(), Held(), |Held()| + |supply|;
      ImageNone(before);
      NodesEmpty();
      var programEnd := entry;
      for n := 0 to |segs|
        invariant Valid() && Mem() == ImageView(before, segs[..n])
        invariant Held() == held + NodesOf(AllPages(segs[..n])) && |Held()| + |supply| == total
        invariant programEnd == ProgramEnd(entry, segs[..n])
      {
        var s := segs[n];
        assert segs[..n + 1] == segs[..n] + [s];
        ImageNext(before, segs[..n], s);
        NodesConcat(AllPages(segs[..n]), SegmentPages(s));
        ghost var more := held + NodesOf(AllPages(segs[..n])) + NodesOf(SegmentPages(s));
        assert more == held + NodesOf(AllPages(segs[..n + 1]));
        if s.load {
          if s.vaddr + s.memsz > programEnd { programEnd := s.vaddr + s.memsz; }
          var ok := LoadSegment(s);
          if !ok {
            SegmentMissing(held, segs, n + 1);
            return OutOfMemory;
          }
        } else {
          NoPages(s);
          NodesEmpty();
        }
      }
      assert segs[..|segs|] == segs;
      r := Loaded(entry, programEnd);
    }
  }

  lemma NodesNone(s: Segment)
    ensures NodesOf(FirstPages(s, 0)) == {}
  {
  }

  lemma NodesEmpty()
    ensures NodesOf({}) == {} && NodesOf(AllPages([])) == {}
  {
  }

  lemma NoPages(s: Segment)
    requires !s.load
    ensures SegmentPages(s) == {}
  {
  }

  lemma NodesConcat(a: set<nat>, b: set<nat>)
    ensures NodesOf(a + b) == NodesOf(a) + NodesOf(b)
  {
  }

  lemma NodesNext(s: Segment, n: nat)
    ensures NodesOf(FirstPages(s, n + 1)) == NodesOf(FirstPages(s, n)) + Nodes(s.StartPage() + n)
  {
    hide Nodes;
    assert FirstPages(s, n + 1) == FirstPages(s, n) + {s.StartPage() + n};
  }

  lemma {:induction false} NodesGrow(s: Segment, n: nat, m: nat)
    requires n <= m
    ensures NodesOf(FirstPages(s, n)) <= NodesOf(FirstPages(s, m))
  {
    hide Nodes;
  }

  // ---------------------------------------------------------------- one page after another

  lemma LaidNone(v: View, s: Segment)
    ensures Laid(v, s, FirstPages(s, 0)) == v
  {
  }

  lemma LaidNext(v: View, s: Segment, n: nat)
    ensures var p, before := s.StartPage() + n, Laid(v, s, FirstPages(s, n));
      Laid(v, s, FirstPages(s, n + 1)) == before[p := PageAfter(s, p, PageOf(before, p))]
  {
    hide PageAfter;
  }

  lemma SubsetSize<T>(a: set<T>, b: set<T>)
    requires a <= b
    ensures |a| <= |b|
  {
    assert b == a + (b - a);
  }

  /** A page that cannot be mapped with the frames left: the whole segment needs more than there are. */
  lemma PageMissing(s: Segment, n: nat, held: set<Node>)
    requires s.load && n < s.NumPages()
    ensures |held + NodesOf(FirstPages(s, n)) + Nodes(s.StartPage() + n)| <= |held + NodesOf(SegmentPages(s))|
  {
    hide Nodes, NodesOf, FirstPages;
    NodesNext(s, n);
    NodesGrow(s, n + 1, s.NumPages());
    SubsetSize(held + NodesOf(FirstPages(s, n)) + Nodes(s.StartPage() + n), held + NodesOf(SegmentPages(s)));
  }

  // ---------------------------------------------------------------- one segment after another

  lemma SegmentMissing(held: set<Node>, segs: seq<Segment>, n: nat)
    requires n <= |segs|
    ensures |held + NodesOf(AllPages(segs[..n]))| <= |held + NodesOf(AllPages(segs))|
  {
    hide AllPages, Nodes;
    PagesGrow(segs, n);
    SubsetSize(held + NodesOf(AllPages(segs[..n])), held + NodesOf(AllPages(segs)));
  }

  lemma ImageNone(v: View)
    ensures ImageView(v, []) == v
  {
    forall p | p in v ensures ImagePage([], p, v[p]) == v[p] {
    }
  }

  /** A page a segment does not visit holds none of its bytes. */
  lemma Unvisited(s: Segment, p: nat, k: nat)
    requires p !in SegmentPages(s) && k < PAGE
    ensures !s.Holds(PAGE * p + k)
  {
    var a := PAGE * p + k;
    assert a / PAGE == p;
    assert s.vaddr == PAGE * s.StartPage() + s.StartOffset();
    assert s.Holds(a) ==> s.StartPage() <= p < s.StartPage() + s.NumPages();
  }

  lemma UnvisitedPage(s: Segment, p: nat, under: Page)
    requires p !in SegmentPages(s)
    ensures PageAfter(s, p, under) == under
  {
    forall k | 0 <= k < PAGE ensures PageAfter(s, p, under)[k] == under[k] {
      Unvisited(s, p, k);
    }
  }

  lemma {:induction false} UnvisitedImage(segs: seq<Segment>, p: nat, under: Page)
    requires p !in AllPages(segs)
    ensures ImagePage(segs, p, under) == under
  {
    if segs != [] {
      var init, s := segs[..|segs| - 1], segs[|segs| - 1];
      UnvisitedImage(init, p, under);
      UnvisitedPage(s, p, under);
      ImagePageNext(init, s, p, under);
      assert init + [s] == segs;
    }
  }

  lemma ImagePageNext(segs: seq<Segment>, s: Segment, p: nat, under: Page)
    ensures ImagePage(segs + [s], p, under) == PageAfter(s, p, ImagePage(segs, p, under))
  {
    var all := segs + [s];
    assert all[|all| - 1] == s && all[..|all| - 1] == segs;
  }

  lemma AllPagesNext(segs: seq<Segment>, s: Segment)
    ensures AllPages(segs + [s]) == AllPages(segs) + SegmentPages(s)
  {
    var all := segs + [s];
    assert all[|all| - 1] == s && all[..|all| - 1] == segs;
  }

  lemma ImageNext(v: View, segs: seq<Segment>, s: Segment)
    ensures AllPages(segs + [s]) == AllPages(segs) + SegmentPages(s)
    ensures forall entry ::
      ProgramEnd(entry, segs + [s]) ==
      (if s.load && s.vaddr + s.memsz > ProgramEnd(entry, segs) then s.vaddr + s.memsz else ProgramEnd(entry, segs))
    ensures Laid(ImageView(v, segs), s, SegmentPages(s)) == ImageView(v, segs + [s])
    ensures !s.load ==> ImageView(v, segs + [s]) == ImageView(v, segs)
  {
    hide ImagePage, PageAfter, SegmentPages, AllPages;
    AllPagesNext(segs, s);
    var all := segs + [s];
    assert all[|all| - 1] == s && all[..|all| - 1] == segs;
    var was, now := ImageView(v, segs), ImageView(v, all);
    forall p | p in now
      ensures now[p] == if p in SegmentPages(s) then PageAfter(s, p, PageOf(was, p)) else was[p]
    {
      ImagePageNext(segs, s, p, PageOf(v, p));
      if p !in SegmentPages(s) { UnvisitedPage(s, p, ImagePage(segs, p, PageOf(v, p))); }
      if p !in was { UnvisitedImage(segs, p, Blank()); }
    }
    assert Laid(was, s, SegmentPages(s)) == now;
    NoLoad(was, s);
  }

  lemma NoLoad(v: View, s: Segment)
    ensures !s.load ==> Laid(v, s, SegmentPages(s)) == v
  {
  }

  lemma {:induction false} PagesGrow(segs: seq<Segment>, n: nat)
    requires n <= |segs|
    ensures AllPages(segs[..n]) <= AllPages(segs)
    decreases |segs|
  {
    if n < |segs| {
      PagesGrow(segs[..|segs| - 1], n);
      assert segs[..|segs| - 1][..n] == segs[..n];
    } else {
      assert segs[..n] == segs;
    }
  }

  // ---------------------------------------------------------------- what the image is

  /** No address belongs to two loadable segments; they may still share a page. */
  ghost predicate Disjoint(segs: seq<Segment>)
  {
    forall i, j, a :: 0 <= i < j < |segs| && segs[i].Holds(a) ==> !segs[j].Holds(a)
  }

  /** The image of disjoint segments: byte `k` of each is its file byte, or zero past the file's part. */
  lemma {:induction false} SegmentImage(segs: seq<Segment>, i: nat, k: nat)
    requires Disjoint(segs) && i < |segs| && segs[i].load && k < segs[i].memsz
    ensures Image(segs, segs[i].vaddr + k, 0) == if k < |segs[i].data| then segs[i].data[k] else 0
    decreases |segs|
  {
    var init, s, a := segs[..|segs| - 1], segs[|segs| - 1], segs[i].vaddr + k;
    assert segs[i].Holds(a);
    if i < |segs| - 1 {
      assert !s.Holds(a);
      SegmentImage(init, i, k);
    } else {
      forall j | 0 <= j < |init| ensures !init[j].Holds(a) {
        assert init[j] == segs[j];
      }
      Gap(init, a, 0);
    }
  }

  /** An address of no segment keeps what was under it. */
  lemma {:induction false} Gap(segs: seq<Segment>, a: nat, under: byte)
    requires forall j :: 0 <= j < |segs| ==> !segs[j].Holds(a)
    ensures Image(segs, a, under) == under
  {
    if segs != [] {
      assert !segs[|segs| - 1].Holds(a);
      Gap(segs[..|segs| - 1], a, under);
    }
  }

  /** Every byte of a loadable segment lies on a page the loader maps. */
  lemma {:induction false} BytesMapped(segs: seq<Segment>, i: nat, k: nat)
    requires i < |segs| && segs[i].load && k < segs[i].memsz
    ensures (segs[i].vaddr + k) / PAGE in AllPages(segs)
    decreases |segs|
  {
    if i < |segs| - 1 {
      BytesMapped(segs[..|segs| - 1], i, k);
    } else {
      var a := segs[i].vaddr + k;
      assert a == PAGE * (a / PAGE) + a % PAGE;
      if a / PAGE !in SegmentPages(segs[i]) { Unvisited(segs[i], a / PAGE, a % PAGE); }
    }
  }

  /** The loaded image: in a space that mapped none of the program's pages, the memory at address
      `vaddr + k` of each segment is its file byte, or zero. */
  lemma ElfImage(v: View, segs: seq<Segment>, i: nat, k: nat)
    requires Disjoint(segs) && v.Keys !! AllPages(segs)
    requires i < |segs| && segs[i].load && k < segs[i].memsz
    ensures var a, now := segs[i].vaddr + k, ImageView(v, segs);
      && a / PAGE in now
      && now[a / PAGE][a % PAGE] == if k < |segs[i].data| then segs[i].data[k] else 0
  {
    hide Image, AllPages;
    var a := segs[i].vaddr + k;
    BytesMapped(segs, i, k);
    SegmentImage(segs, i, k);
    assert a == PAGE * (a / PAGE) + a % PAGE;
  }

  /** Pages of other mappings keep their contents. */
  lemma OtherPagesKept(v: View, segs: seq<Segment>, p: nat)
    requires p in v && p !in AllPages(segs)
    ensures ImageView(v, segs)[p] == v[p]
  {
    UnvisitedImage(segs, p, v[p]);
  }
}
