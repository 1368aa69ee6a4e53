/**
 Physical page frames and two-level page tables (lab/kern/pmap.c), with the parts of
 env.c and syscall.c that create and destroy address spaces.

 Page directories and page tables live in physical frames, next to user data.  A
 32-bit word is split into the frame number in its upper 20 bits and the flags in its
 lower 12; a linear address is split into its page-directory index, page-table index
 and offset.
 */
module PageTables {
  import opened Options

  const NPTENTRIES := 1024
  const PDX_UTOP := 955        // PDX(UTOP): directory entries below it are the user part
  const PDX_UVPT := 957
  const NENV := 1024

  const PTE_P: bv12 := 0x001
  const PTE_W: bv12 := 0x002
  const PTE_U: bv12 := 0x004
  const PTE_AVAIL: bv12 := 0xE00
  const PTE_SYSCALL: bv12 := 0xE07

  datatype Word = Word(addr: nat, flags: bv12)
  const ZERO := Word(0, 0)

  function ZeroPage(): (page: seq<Word>)
    ensures |page| == NPTENTRIES && forall i :: 0 <= i < NPTENTRIES ==> page[i] == ZERO
  {
    seq(NPTENTRIES, _ => ZERO)
  }

  predicate Present(w: Word) {
    w.flags & PTE_P != 0
  }

  // A place that can refer to a frame: an environment's page directory, an entry of
  // the user part of that directory, or an entry of one of its page tables.
  datatype Ref = PgDir(e: nat) | Pde(e: nat, d: nat) | Pte(e: nat, d: nat, t: nat)

  // ------------------------------------------------------------------
  // Translation
  // ------------------------------------------------------------------

  datatype Memory = Memory(words: seq<seq<Word>>, pgdir: seq<Option<nat>>)

  // The word at index `i` of `frame`, zero where there is none.
  function WordAt(m: Memory, frame: Option<nat>, i: nat): Word {
    if frame.Some? && frame.value < |m.words| && i < |m.words[frame.value]| then m.words[frame.value][i] else ZERO
  }

  function Follow(w: Word): Option<nat> {
    if Present(w) then Some(w.addr) else None
  }

  // page2pa(pp) | perm | PTE_P
  function Entry(pp: nat, perm: bv12): (w: Word)
    ensures w.addr == pp && w.flags == perm | PTE_P && Present(w)
  {
    Word(pp, perm | PTE_P)
  }

  function DirOf(m: Memory, e: nat): Option<nat> {
    if e < |m.pgdir| then m.pgdir[e] else None
  }

  // Entry `d` of the user part of the page directory of `e`.
  function PdeOf(m: Memory, e: nat, d: nat): Word {
    if d < PDX_UTOP then WordAt(m, DirOf(m, e), d) else ZERO
  }

  function TableOf(m: Memory, e: nat, d: nat): Option<nat> {
    Follow(PdeOf(m, e, d))
  }

  // The page-table entry for page (d, t) of environment `e`: what check_va2pa finds.
  function EntryOf(m: Memory, e: nat, d: nat, t: nat): Word {
    WordAt(m, TableOf(m, e, d), t)
  }

  function Target(m: Memory, r: Ref): Option<nat> {
    match r
    case PgDir(e) => DirOf(m, e)
    case Pde(e, d) => TableOf(m, e, d)
    case Pte(e, d, t) => Follow(EntryOf(m, e, d, t))
  }

  // ------------------------------------------------------------------
  // Who refers to each frame
  // ------------------------------------------------------------------

  // `rs[f]` is exactly the set of places that refer to frame `f`.
  ghost predicate Exact(m: Memory, rs: seq<set<Ref>>) {
    && |rs| == |m.words|
    && (forall r :: Target(m, r).Some? ==> Target(m, r).value < |rs| && r in rs[Target(m, r).value])
    && (forall f, r :: 0 <= f < |rs| && r in rs[f] ==> Target(m, r) == Some(f))
  }

  // A page directory or page table has a single reference, so it is neither shared nor
  // mapped as data.
  ghost predicate Exclusive(rs: seq<set<Ref>>) {
    forall f, r :: 0 <= f < |rs| && r in rs[f] && !r.Pte? ==> rs[f] == {r}
  }

  ghost predicate DataFrame(rs: seq<set<Ref>>, f: nat) {
    f < |rs| && forall r :: r in rs[f] ==> r.Pte?
  }

  ghost predicate Tabled(m: Memory, rs: seq<set<Ref>>) {
    Exact(m, rs) && Exclusive(rs)
  }

  // ------------------------------------------------------------------
  // The effect of storing into a frame
  // ------------------------------------------------------------------

  function Store(m: Memory, f: nat, i: nat, w: Word): Memory
    requires f < |m.words| && i < |m.words[f]|
  {
    m.(words := m.words[f := m.words[f][i := w]])
  }

  function Fill(m: Memory, f: nat, content: seq<Word>): Memory
    requires f < |m.words|
  {
    m.(words := m.words[f := content])
  }

  function SetDir(m: Memory, e: nat, p: Option<nat>): Memory
    requires e < |m.pgdir|
  {
    m.(pgdir := m.pgdir[e := p])
  }

  // What `r` denotes: the frame it refers to and, for an entry, the whole entry.
  ghost predicate Agree(m: Memory, m': Memory, r: Ref) {
    && Target(m', r) == Target(m, r)
    && (r.Pde? ==> PdeOf(m', r.e, r.d) == PdeOf(m, r.e, r.d))
    && (r.Pte? ==> EntryOf(m', r.e, r.d, r.t) == EntryOf(m, r.e, r.d, r.t))
  }

  ghost predicate AgreeBut(m: Memory, m': Memory, r0: Ref) {
    forall r :: r != r0 ==> Agree(m, m', r)
  }

  ghost predicate AgreeAll(m: Memory, m': Memory) {
    forall r :: Agree(m, m', r)
  }

  // Nothing changes outside environment `e` ...
  ghost predicate AgreeOutside(m: Memory, m': Memory, e: nat) {
    forall r: Ref :: r.e != e ==> Agree(m, m', r)
  }

  // ... or outside what one of its directory entries covers.
  ghost predicate AgreeOutsideTable(m: Memory, m': Memory, e: nat, d: nat) {
    forall r: Ref :: r.PgDir? || r.e != e || r.d != d ==> Agree(m, m', r)
  }

  lemma AgreeTransitive(m: Memory, m1: Memory, m2: Memory, r0: Ref)
    requires AgreeAll(m, m1) || AgreeBut(m, m1, r0)
    requires AgreeAll(m1, m2) || AgreeBut(m1, m2, r0)
    ensures AgreeBut(m, m2, r0)
  {
    forall r | r != r0
      ensures Agree(m, m2, r)
    {
      assert Agree(m, m1, r) && Agree(m1, m2, r);
    }
  }

  // The directory and table that `r` goes through are known to `rs`.
  lemma PathKnown(m: Memory, rs: seq<set<Ref>>, r: Ref)
    requires Exact(m, rs)
    ensures DirOf(m, r.e).Some? ==> DirOf(m, r.e).value < |rs| && PgDir(r.e) in rs[DirOf(m, r.e).value]
    ensures !r.PgDir? && TableOf(m, r.e, r.d).Some? ==>
              TableOf(m, r.e, r.d).value < |rs| && Pde(r.e, r.d) in rs[TableOf(m, r.e, r.d).value]
  {
    assert Target(m, PgDir(r.e)) == DirOf(m, r.e);
    if !r.PgDir? {
      assert Target(m, Pde(r.e, r.d)) == TableOf(m, r.e, r.d);
    }
  }

  // A frame some page-table entry maps is neither a page table nor a page directory.
  lemma MappedIsData(m: Memory, rs: seq<set<Ref>>, e: nat, d: nat, t: nat)
    requires Tabled(m, rs) && Present(EntryOf(m, e, d, t))
    ensures EntryOf(m, e, d, t).addr < |rs| && Pte(e, d, t) in rs[EntryOf(m, e, d, t).addr]
    ensures DataFrame(rs, EntryOf(m, e, d, t).addr)
  {
    assert Target(m, Pte(e, d, t)) == Some(EntryOf(m, e, d, t).addr);
  }

  // Storing into a frame that holds data changes no translation.
  lemma StoreData(m: Memory, rs: seq<set<Ref>>, f: nat, content: seq<Word>, r: Ref)
    requires Tabled(m, rs) && DataFrame(rs, f)
    ensures Agree(m, Fill(m, f, content), r)
  {
    PathKnown(m, rs, r);
  }

  // Storing into a page table changes only the entry written.
  lemma StorePte(m: Memory, rs: seq<set<Ref>>, e: nat, d: nat, t: nat, w: Word, r: Ref)
    requires Tabled(m, rs) && TableOf(m, e, d).Some?
    requires TableOf(m, e, d).value < |m.words| && t < |m.words[TableOf(m, e, d).value]|
    ensures r != Pte(e, d, t) ==> Agree(m, Store(m, TableOf(m, e, d).value, t, w), r)
    ensures EntryOf(Store(m, TableOf(m, e, d).value, t, w), e, d, t) == w
  {
    var pt := TableOf(m, e, d).value;
    var m' := Store(m, pt, t, w);
    PathKnown(m, rs, r);
    PathKnown(m, rs, Pte(e, d, t));
    assert rs[pt] == {Pde(e, d)};
    assert DirOf(m, e) != Some(pt) && DirOf(m, r.e) != Some(pt);
    assert TableOf(m', e, d) == Some(pt);
    if !r.PgDir? {
      assert TableOf(m', r.e, r.d) == TableOf(m, r.e, r.d);
    }
  }

  // Storing into the user part of a page directory changes only what lies below the
  // entry written.
  lemma StorePde(m: Memory, rs: seq<set<Ref>>, e: nat, d: nat, w: Word, r: Ref)
    requires Tabled(m, rs) && DirOf(m, e).Some? && d < PDX_UTOP
    requires DirOf(m, e).value < |m.words| && d < |m.words[DirOf(m, e).value]|
    ensures r.PgDir? || r.e != e || r.d != d ==> Agree(m, Store(m, DirOf(m, e).value, d, w), r)
    ensures PdeOf(Store(m, DirOf(m, e).value, d, w), e, d) == w
    ensures TableOf(Store(m, DirOf(m, e).value, d, w), e, d) == Follow(w)
  {
    var pd := DirOf(m, e).value;
    var m' := Store(m, pd, d, w);
    PathKnown(m, rs, r);
    PathKnown(m, rs, PgDir(e));
    assert rs[pd] == {PgDir(e)};
    assert r.e != e ==> DirOf(m, r.e) != Some(pd);
    if !r.PgDir? {
      assert TableOf(m, r.e, r.d) != Some(pd);
      assert r.e != e || r.d != d ==> TableOf(m', r.e, r.d) == TableOf(m, r.e, r.d);
    }
  }

  // ------------------------------------------------------------------
  // Moving one reference
  // ------------------------------------------------------------------

  // `rs` after `r` stops referring to `from` and starts referring to `to`.
  ghost function Moved(rs: seq<set<Ref>>, r: Ref, from: Option<nat>, to: Option<nat>): (rs': seq<set<Ref>>)
    ensures |rs'| == |rs|
  {
    var rs1 := if from.Some? && from.value < |rs| then rs[from.value := rs[from.value] - {r}] else rs;
    if to.Some? && to.value < |rs| then rs1[to.value := rs1[to.value] + {r}] else rs1
  }

  lemma MoveExact(m: Memory, rs: seq<set<Ref>>, m': Memory, r: Ref)
    requires Tabled(m, rs) && |m'.words| == |m.words|
    requires forall q :: q != r ==> Target(m', q) == Target(m, q)
    requires Target(m', r).Some? ==> Target(m', r).value < |rs|
    ensures Exact(m', Moved(rs, r, Target(m, r), Target(m', r)))
  {
  }

  lemma MoveExclusive(m: Memory, rs: seq<set<Ref>>, r: Ref, to: Option<nat>)
    requires Tabled(m, rs)
    requires to.Some? && to.value < |rs| ==>
               (if r.Pte? then DataFrame(rs, to.value) else rs[to.value] == {})
    ensures Exclusive(Moved(rs, r, Target(m, r), to))
  {
    var rs' := Moved(rs, r, Target(m, r), to);
    forall f: int, q: Ref | 0 <= f < |rs'| && q in rs'[f] && !q.Pte?
      ensures rs'[f] == {q}
    {
      if q != r {
        assert q in rs[f];
        assert rs[f] == {q};
      }
    }
  }

  // ------------------------------------------------------------------
  // The free list
  // ------------------------------------------------------------------

  // `pages[]` and `page_free_list`.
  datatype Frames = Frames(refs: seq<nat>, link: seq<Option<nat>>, head: Option<nat>)

  // Following pp_link from `head` visits exactly `free`.
  ghost predicate IsList(link: seq<Option<nat>>, head: Option<nat>, free: seq<nat>)
    decreases |free|
  {
    if free == [] then head == None
    else head == Some(free[0]) && free[0] < |link| && IsList(link, link[free[0]], free[1..])
  }

  ghost predicate NoDuplicates(free: seq<nat>) {
    forall i, j :: 0 <= i < j < |free| ==> free[i] != free[j]
  }

  // The free list is `free`, and pp_link is NULL off it.
  ghost predicate Listed(fr: Frames, free: seq<nat>) {
    && IsList(fr.link, fr.head, free)
    && NoDuplicates(free)
    && (forall f :: f in free ==> f < |fr.link|)
    && (forall f :: 0 <= f < |fr.link| && f !in free ==> fr.link[f] == None)
  }

  lemma {:induction false} LinkElsewhere(link: seq<Option<nat>>, head: Option<nat>, free: seq<nat>, f: nat, x: Option<nat>)
    requires IsList(link, head, free) && f < |link| && f !in free
    ensures IsList(link[f := x], head, free)
    decreases |free|
  {
    if free != [] {
      LinkElsewhere(link, link[free[0]], free[1..], f, x);
    }
  }

  function Pop(fr: Frames): (fr': Frames)
    requires fr.head.Some? && fr.head.value < |fr.link|
  {
    fr.(head := fr.link[fr.head.value], link := fr.link[fr.head.value := None])
  }

  function Push(fr: Frames, f: nat): (fr': Frames)
    requires f < |fr.link|
  {
    fr.(head := Some(f), link := fr.link[f := fr.head])
  }

  lemma PopListed(fr: Frames, free: seq<nat>)
    requires Listed(fr, free) && free != []
    ensures Listed(Pop(fr), free[1..])
    ensures free[0] !in free[1..]
  {
    LinkElsewhere(fr.link, fr.link[free[0]], free[1..], free[0], None);
    assert forall f :: f in free <==> f == free[0] || f in free[1..];
  }

  lemma PushListed(fr: Frames, free: seq<nat>, f: nat)
    requires Listed(fr, free) && f < |fr.link| && f !in free
    ensures Listed(Push(fr, f), [f] + free)
  {
    LinkElsewhere(fr.link, fr.head, free, f, fr.head);
    assert ([f] + free)[1..] == free;
  }

  // ------------------------------------------------------------------
  // The invariant
  // ------------------------------------------------------------------

  /**
   What the counts and the list stand for.  `free` is the list of free frames, `rs` says
   who refers to each frame and `reserved` are the frames set aside at boot.  Inside an
   operation a frame may be `pending`, taken off the free list but not yet counted, or
   `held`, counted once more than it is referred to.
   */
  datatype Shadow = Shadow(free: seq<nat>, rs: seq<set<Ref>>, reserved: set<nat>, pending: set<nat>, held: Option<nat>)

  ghost predicate Counted(fr: Frames, g: Shadow) {
    && |fr.refs| == |g.rs|
    && forall f :: 0 <= f < |g.rs| && f !in g.reserved ==>
         fr.refs[f] == |g.rs[f]| + if g.held == Some(f) then 1 else 0
  }

  // Free means not reserved, not counted and not pending.
  ghost predicate Accounted(fr: Frames, g: Shadow) {
    && |fr.refs| == |fr.link| == |g.rs|
    && (forall f :: f in g.free ==> f < |g.rs| && f !in g.reserved && fr.refs[f] == 0 && f !in g.pending)
    && (forall f :: 0 <= f < |g.rs| && f !in g.reserved && f !in g.pending && fr.refs[f] == 0 ==> f in g.free)
    && (forall f :: f in g.pending ==> f < |g.rs| && f !in g.reserved && fr.refs[f] == 0)
    && (forall f :: f in g.reserved ==> f < |g.rs| && g.rs[f] == {} && g.held != Some(f))
    && (g.held.Some? ==> g.held.value < |g.rs|)
  }

  ghost predicate Shaped(m: Memory) {
    && |m.pgdir| == NENV
    && forall f :: 0 <= f < |m.words| ==> |m.words[f]| == NPTENTRIES
  }

  // A page table restricts nothing: the entries in it decide.
  ghost predicate OpenAt(m: Memory, e: nat, d: nat) {
    Present(PdeOf(m, e, d)) ==> PdeOf(m, e, d).flags == PTE_W | PTE_U | PTE_P
  }

  ghost predicate Open(m: Memory) {
    forall e, d {:trigger OpenAt(m, e, d)} :: OpenAt(m, e, d)
  }

  lemma StaysOpen(m: Memory, m': Memory, r: Ref)
    requires Open(m) && (r.Pde? ==> OpenAt(m', r.e, r.d))
    requires forall q: Ref :: q.Pde? && q != r ==> PdeOf(m', q.e, q.d) == PdeOf(m, q.e, q.d)
    ensures Open(m')
  {
    forall e: nat, d: nat
      ensures OpenAt(m', e, d)
    {
      assert OpenAt(m, e, d);
      assert Pde(e, d) != r ==> PdeOf(m', Pde(e, d).e, Pde(e, d).d) == PdeOf(m, e, d);
    }
  }

  ghost predicate Inv(m: Memory, fr: Frames, g: Shadow) {
    && Shaped(m)
    && Open(m)
    && Tabled(m, g.rs)
    && Listed(fr, g.free)
    && Counted(fr, g)
    && Accounted(fr, g)
  }

  // ------------------------------------------------------------------
  // Steps that keep it
  // ------------------------------------------------------------------

  // page_alloc
  lemma AllocKeeps(m: Memory, fr: Frames, g: Shadow)
    requires Inv(m, fr, g) && g.free != []
    ensures fr.head == Some(g.free[0]) && g.free[0] < |fr.link|
    ensures Inv(m, Pop(fr), g.(free := g.free[1..], pending := g.pending + {g.free[0]}))
  {
    PopListed(fr, g.free);
    var g' := g.(free := g.free[1..], pending := g.pending + {g.free[0]});
    assert Accounted(Pop(fr), g') by {
      assert forall f :: f in g.free <==> f == g.free[0] || f in g.free[1..];
    }
  }

  // page_free
  lemma FreeKeeps(m: Memory, fr: Frames, g: Shadow, f: nat)
    requires Inv(m, fr, g) && f in g.pending
    ensures f < |fr.link| && fr.refs[f] == 0 && fr.link[f] == None
    ensures Inv(m, Push(fr, f), g.(free := [f] + g.free, pending := g.pending - {f}))
  {
    PushListed(fr, g.free, f);
  }

  // pp_ref++
  lemma HoldKeeps(m: Memory, fr: Frames, g: Shadow, f: nat)
    requires Inv(m, fr, g) && g.held == None && f < |g.rs| && f !in g.reserved && f !in g.free
    ensures Inv(m, fr.(refs := fr.refs[f := fr.refs[f] + 1]), g.(held := Some(f), pending := g.pending - {f}))
  {
  }

  // memset, or a store by the user, in a frame that is no page table
  lemma FillKeeps(m: Memory, fr: Frames, g: Shadow, f: nat, content: seq<Word>)
    requires Inv(m, fr, g) && DataFrame(g.rs, f) && |content| == NPTENTRIES
    ensures Inv(Fill(m, f, content), fr, g)
    ensures AgreeAll(m, Fill(m, f, content))
  {
    var m' := Fill(m, f, content);
    forall r
      ensures Agree(m, m', r) && Target(m', r) == Target(m, r)
      ensures r.Pde? ==> PdeOf(m', r.e, r.d) == PdeOf(m, r.e, r.d)
    {
      StoreData(m, g.rs, f, content, r);
    }
    assert Exact(m', g.rs);
    StaysOpen(m, m', PgDir(0));
  }

  // The held frame gains the reference `r`.
  lemma AddRefKeeps(m: Memory, fr: Frames, g: Shadow, m': Memory, r: Ref, f: nat)
    requires Inv(m, fr, g) && g.held == Some(f)
    requires Shaped(m') && |m'.words| == |m.words|
    requires Target(m, r) == None && Target(m', r) == Some(f)
    requires forall q :: q != r ==> Target(m', q) == Target(m, q)
    requires Open(m')
    requires if r.Pte? then DataFrame(g.rs, f) else g.rs[f] == {}
    ensures Inv(m', fr, g.(rs := Moved(g.rs, r, None, Some(f)), held := None))
  {
    MoveExact(m, g.rs, m', r);
    MoveExclusive(m, g.rs, r, Some(f));
    assert r !in g.rs[f];
  }

  // page_decref: the count drops and a frame nobody refers to is freed.
  ghost predicate ReleasedWithLast(fr: Frames, fr': Frames, f: nat)
    requires f < |fr.refs|
  {
    forall free {:trigger Listed(fr, free)} :: Listed(fr, free) && f !in free ==>
      Listed(fr', if fr.refs[f] == 1 then [f] + free else free)
  }

  lemma DecrefListed(fr: Frames, f: nat)
    requires f < |fr.refs| && f < |fr.link| && fr.refs[f] > 0
    ensures ReleasedWithLast(fr, Decref(fr, f), f)
  {
    var fr1 := fr.(refs := fr.refs[f := fr.refs[f] - 1]);
    forall free | Listed(fr, free) && f !in free
      ensures Listed(Decref(fr, f), if fr.refs[f] == 1 then [f] + free else free)
    {
      assert Listed(fr1, free);
      if fr.refs[f] == 1 { PushListed(fr1, free, f); }
    }
  }

  function Decref(fr: Frames, f: nat): (fr': Frames)
    requires f < |fr.refs| && f < |fr.link| && fr.refs[f] > 0
  {
    var fr1 := fr.(refs := fr.refs[f := fr.refs[f] - 1]);
    if fr1.refs[f] == 0 then Push(fr1, f) else fr1
  }

  ghost function Released(fr: Frames, g: Shadow, f: nat): seq<nat>
    requires f < |fr.refs|
  {
    if fr.refs[f] == 1 then [f] + g.free else g.free
  }

  lemma DropCount(fr: Frames, g: Shadow, r: Ref, f: nat)
    requires Listed(fr, g.free) && Counted(fr, g) && Accounted(fr, g)
    requires f < |g.rs| && r in g.rs[f]
    ensures fr.refs[f] > 0
    ensures Counted(Decref(fr, f), g.(rs := Moved(g.rs, r, Some(f), None), free := Released(fr, g, f)))
    ensures Accounted(Decref(fr, f), g.(rs := Moved(g.rs, r, Some(f), None), free := Released(fr, g, f)))
  {
    assert |g.rs[f] - {r}| == |g.rs[f]| - 1;
  }

  // The reference `r` to `f` goes away.
  lemma DropRefKeeps(m: Memory, fr: Frames, g: Shadow, m': Memory, r: Ref, f: nat)
    requires Inv(m, fr, g)
    requires Shaped(m') && |m'.words| == |m.words|
    requires Target(m, r) == Some(f) && Target(m', r) == None
    requires forall q :: q != r ==> Target(m', q) == Target(m, q)
    requires Open(m')
    ensures f < |fr.refs| && f < |fr.link| && fr.refs[f] > 0 && (fr.refs[f] == 1 ==> fr.link[f] == None)
    ensures Inv(m', Decref(fr, f), g.(rs := Moved(g.rs, r, Some(f), None), free := Released(fr, g, f)))
  {
    assert r in g.rs[f];
    MoveExact(m, g.rs, m', r);
    MoveExclusive(m, g.rs, r, None);
    DropCount(fr, g, r, f);
    if fr.refs[f] == 1 {
      PushListed(fr.(refs := fr.refs[f := 0]), g.free, f);
    }
  }

  // The first free frame becomes the page table of (e, d).
  ghost function Tabling(g: Shadow, e: nat, d: nat): Shadow
    requires g.free != []
  {
    g.(free := g.free[1..], rs := Moved(g.rs, Pde(e, d), None, Some(g.free[0])))
  }

  // pgdir_walk points an absent directory entry at a cleared frame.
  lemma InstallTable(m: Memory, fr: Frames, g: Shadow, e: nat, d: nat, np: nat, w: Word)
    requires Inv(m, fr, g) && g.held == None && np in g.pending
    requires DirOf(m, e).Some? && DirOf(m, e).value < |m.words| && d < PDX_UTOP && TableOf(m, e, d) == None
    requires m.words[np] == ZeroPage() && Follow(w) == Some(np) && w.flags == PTE_W | PTE_U | PTE_P
    ensures Inv(Store(m, DirOf(m, e).value, d, w), fr.(refs := fr.refs[np := fr.refs[np] + 1]),
                g.(rs := Moved(g.rs, Pde(e, d), None, Some(np)), pending := g.pending - {np}))
    ensures AgreeBut(m, Store(m, DirOf(m, e).value, d, w), Pde(e, d))
    ensures PdeOf(Store(m, DirOf(m, e).value, d, w), e, d) == w
    ensures TableOf(Store(m, DirOf(m, e).value, d, w), e, d) == Some(np)
  {
    var m' := Store(m, DirOf(m, e).value, d, w);
    PathKnown(m, g.rs, PgDir(e));
    assert PdeOf(m', e, d) == w by { StorePde(m, g.rs, e, d, w, PgDir(e)); }
    forall r | r != Pde(e, d)
      ensures Agree(m, m', r) && Target(m', r) == Target(m, r)
      ensures r.Pde? ==> PdeOf(m', r.e, r.d) == PdeOf(m, r.e, r.d)
    {
      StorePde(m, g.rs, e, d, w, r);
      if r.Pte? && r.e == e && r.d == d {
        assert EntryOf(m, e, d, r.t) == ZERO == EntryOf(m', e, d, r.t);
      }
    }
    StaysOpen(m, m', Pde(e, d));
    assert Target(m', Pde(e, d)) == Some(np);
    assert Target(m, Pde(e, d)) == None;
    HoldKeeps(m, fr, g, np);
    AddRefKeeps(m, fr.(refs := fr.refs[np := fr.refs[np] + 1]), g.(held := Some(np), pending := g.pending - {np}),
                m', Pde(e, d), np);
  }

  // page_insert fills an absent entry with the frame it holds.
  lemma InsertPage(m: Memory, fr: Frames, g: Shadow, e: nat, d: nat, t: nat, pp: nat, w: Word)
    requires Inv(m, fr, g) && g.held == Some(pp) && DataFrame(g.rs, pp)
    requires TableOf(m, e, d).Some? && TableOf(m, e, d).value < |m.words| && t < NPTENTRIES
    requires Follow(EntryOf(m, e, d, t)) == None && Follow(w) == Some(pp)
    ensures Inv(Store(m, TableOf(m, e, d).value, t, w), fr,
                g.(rs := Moved(g.rs, Pte(e, d, t), None, Some(pp)), held := None))
    ensures AgreeBut(m, Store(m, TableOf(m, e, d).value, t, w), Pte(e, d, t))
    ensures EntryOf(Store(m, TableOf(m, e, d).value, t, w), e, d, t) == w
  {
    var m' := Store(m, TableOf(m, e, d).value, t, w);
    forall r | r != Pte(e, d, t)
      ensures Agree(m, m', r) && Target(m', r) == Target(m, r)
      ensures r.Pde? ==> PdeOf(m', r.e, r.d) == PdeOf(m, r.e, r.d)
    {
      StorePte(m, g.rs, e, d, t, w, r);
    }
    StaysOpen(m, m', Pte(e, d, t));
    StorePte(m, g.rs, e, d, t, w, Pte(e, d, t));
    AddRefKeeps(m, fr, g, m', Pte(e, d, t), pp);
  }

  // page_remove drops the count of the frame and clears the entry.
  lemma RemovePage(m: Memory, fr: Frames, g: Shadow, e: nat, d: nat, t: nat, f: nat)
    requires Inv(m, fr, g)
    requires TableOf(m, e, d).Some? && TableOf(m, e, d).value < |m.words| && t < NPTENTRIES
    requires Follow(EntryOf(m, e, d, t)) == Some(f)
    ensures f < |fr.refs| && f < |fr.link| && fr.refs[f] > 0 && (fr.refs[f] == 1 ==> fr.link[f] == None)
    ensures Inv(Store(m, TableOf(m, e, d).value, t, ZERO), Decref(fr, f),
                g.(rs := Moved(g.rs, Pte(e, d, t), Some(f), None), free := Released(fr, g, f)))
    ensures AgreeBut(m, Store(m, TableOf(m, e, d).value, t, ZERO), Pte(e, d, t))
    ensures EntryOf(Store(m, TableOf(m, e, d).value, t, ZERO), e, d, t) == ZERO
  {
    var m' := Store(m, TableOf(m, e, d).value, t, ZERO);
    forall r | r != Pte(e, d, t)
      ensures Agree(m, m', r) && Target(m', r) == Target(m, r)
      ensures r.Pde? ==> PdeOf(m', r.e, r.d) == PdeOf(m, r.e, r.d)
    {
      StorePte(m, g.rs, e, d, t, ZERO, r);
    }
    StaysOpen(m, m', Pte(e, d, t));
    StorePte(m, g.rs, e, d, t, ZERO, Pte(e, d, t));
    DropRefKeeps(m, fr, g, m', Pte(e, d, t), f);
  }

  // A new environment gets a cleared page directory.
  lemma InstallDir(m: Memory, fr: Frames, g: Shadow, e: nat, p: nat)
    requires Inv(m, fr, g) && g.held == None && p in g.pending
    requires e < NENV && m.pgdir[e] == None && m.words[p] == ZeroPage()
    ensures Inv(SetDir(m, e, Some(p)), fr.(refs := fr.refs[p := fr.refs[p] + 1]),
                g.(rs := Moved(g.rs, PgDir(e), None, Some(p)), pending := g.pending - {p}))
    ensures AgreeBut(m, SetDir(m, e, Some(p)), PgDir(e))
  {
    var m' := SetDir(m, e, Some(p));
    forall r | r != PgDir(e)
      ensures Agree(m, m', r) && Target(m', r) == Target(m, r)
      ensures r.Pde? ==> PdeOf(m', r.e, r.d) == PdeOf(m, r.e, r.d)
    {
      if !r.PgDir? && r.e == e {
        assert PdeOf(m, e, r.d) == ZERO == PdeOf(m', e, r.d);
      }
    }
    StaysOpen(m, m', PgDir(e));
    HoldKeeps(m, fr, g, p);
    AddRefKeeps(m, fr.(refs := fr.refs[p := fr.refs[p] + 1]), g.(held := Some(p), pending := g.pending - {p}),
                m', PgDir(e), p);
  }

  // Entries of a page directory above UTOP take no part in user translation.
  lemma StoreKernelPde(m: Memory, fr: Frames, g: Shadow, e: nat, d: nat, w: Word)
    requires Inv(m, fr, g) && DirOf(m, e).Some? && DirOf(m, e).value < |m.words| && PDX_UTOP <= d < NPTENTRIES
    ensures Inv(Store(m, DirOf(m, e).value, d, w), fr, g)
    ensures AgreeAll(m, Store(m, DirOf(m, e).value, d, w))
  {
    var pd := DirOf(m, e).value;
    var m' := Store(m, pd, d, w);
    PathKnown(m, g.rs, PgDir(e));
    forall r
      ensures Agree(m, m', r) && Target(m', r) == Target(m, r)
      ensures r.Pde? ==> PdeOf(m', r.e, r.d) == PdeOf(m, r.e, r.d)
    {
      PathKnown(m, g.rs, r);
      assert g.rs[pd] == {PgDir(e)};
      if !r.PgDir? {
        assert TableOf(m, r.e, r.d) != Some(pd);
        assert PdeOf(m', r.e, r.d) == PdeOf(m, r.e, r.d);
      }
    }
    StaysOpen(m, m', PgDir(e));
  }

  // env_free clears the directory entry of a page table with no entries left.
  lemma RemoveTable(m: Memory, fr: Frames, g: Shadow, e: nat, d: nat, pt: nat)
    requires Inv(m, fr, g) && DirOf(m, e).Some? && DirOf(m, e).value < |m.words| && d < PDX_UTOP
    requires TableOf(m, e, d) == Some(pt)
    requires forall t :: 0 <= t < NPTENTRIES ==> !Present(EntryOf(m, e, d, t))
    ensures pt < |fr.refs| && pt < |fr.link| && fr.refs[pt] > 0 && (fr.refs[pt] == 1 ==> fr.link[pt] == None)
    ensures Inv(Store(m, DirOf(m, e).value, d, ZERO), Decref(fr, pt),
                g.(rs := Moved(g.rs, Pde(e, d), Some(pt), None), free := Released(fr, g, pt)))
    ensures AgreeOutsideTable(m, Store(m, DirOf(m, e).value, d, ZERO), e, d)
    ensures TableOf(Store(m, DirOf(m, e).value, d, ZERO), e, d) == None
  {
    var m' := Store(m, DirOf(m, e).value, d, ZERO);
    PathKnown(m, g.rs, Pde(e, d));
    forall r | r != Pde(e, d)
      ensures Target(m', r) == Target(m, r)
      ensures r.PgDir? || r.e != e || r.d != d ==> Agree(m, m', r)
      ensures r.Pde? ==> PdeOf(m', r.e, r.d) == PdeOf(m, r.e, r.d)
    {
      StorePde(m, g.rs, e, d, ZERO, r);
      if r.Pte? && r.e == e && r.d == d {
        assert Follow(EntryOf(m, e, d, r.t)) == None;
        assert TableOf(m', e, d) == None;
      }
    }
    StorePde(m, g.rs, e, d, ZERO, PgDir(e));
    StaysOpen(m, m', Pde(e, d));
    DropRefKeeps(m, fr, g, m', Pde(e, d), pt);
  }

  // ... and finally the page directory itself.
  lemma RemoveDir(m: Memory, fr: Frames, g: Shadow, e: nat, pd: nat)
    requires Inv(m, fr, g) && e < NENV && m.pgdir[e] == Some(pd)
    requires forall d :: 0 <= d < PDX_UTOP ==> TableOf(m, e, d) == None
    ensures pd < |fr.refs| && pd < |fr.link| && fr.refs[pd] > 0 && (fr.refs[pd] == 1 ==> fr.link[pd] == None)
    ensures Inv(SetDir(m, e, None), Decref(fr, pd),
                g.(rs := Moved(g.rs, PgDir(e), Some(pd), None), free := Released(fr, g, pd)))
    ensures AgreeOutside(m, SetDir(m, e, None), e)
  {
    var m' := SetDir(m, e, None);
    forall r | r != PgDir(e)
      ensures Target(m', r) == Target(m, r) && (r.e != e ==> Agree(m, m', r))
    {
      if !r.PgDir? && r.e == e {
        assert TableOf(m, e, r.d) == None;
      }
    }
    forall c: nat, d: nat
      ensures OpenAt(m', c, d)
    {
      assert OpenAt(m, c, d);
      assert c != e ==> Agree(m, m', Pde(c, d));
    }
    DropRefKeeps(m, fr, g, m', PgDir(e), pd);
  }

  // What is left when environment `e` has gone: exactly the references of the others,
  // and every frame nobody else referred to is free.
  lemma OnlyOthersLeft(m: Memory, g: Shadow, m': Memory, fr': Frames, g': Shadow, e: nat, f: nat)
    requires Exact(m, g.rs) && Inv(m', fr', g') && g'.pending == {} && g'.held == None
    requires AgreeOutside(m, m', e) && DirOf(m', e) == None && |g'.rs| == |g.rs|
    requires f < |g.rs|
    ensures forall r :: r in g'.rs[f] <==> r in g.rs[f] && r.e != e
    ensures f !in g'.reserved && (forall r :: r in g.rs[f] ==> r.e == e) ==> f in g'.free
  {
    forall r
      ensures r in g'.rs[f] <==> r in g.rs[f] && r.e != e
    {
      assert r.e != e ==> Agree(m, m', r);
      assert r.e == e ==> Target(m', r) == None;
      assert r in g.rs[f] <==> Target(m, r) == Some(f);
      assert r in g'.rs[f] <==> Target(m', r) == Some(f);
    }
    if forall r :: r in g.rs[f] ==> r.e == e {
      assert g'.rs[f] == {};
    }
  }

  // ------------------------------------------------------------------
  // The kernel's operations
  // ------------------------------------------------------------------

  datatype Error = Ok | BadEnv | Invalid | NoMem

  // A linear address, split as the MMU splits it.
  datatype Va = Va(d: nat, t: nat, off: nat)

  ghost predicate IsVa(va: Va) {
    va.d < 1024 && va.t < NPTENTRIES && va.off < 4096
  }

  // Every page of every address space translates as before, except `va` of `e`; and
  // no page table moves, except that `e` may have gained the one for `va`.
  ghost predicate OnlyPage(m: Memory, m': Memory, e: nat, va: Va) {
    forall r :: r != Pte(e, va.d, va.t) && r != Pde(e, va.d) ==> Agree(m, m', r)
  }

  lemma OnlyPageFrom(m: Memory, m1: Memory, m2: Memory, e: nat, va: Va)
    requires AgreeBut(m, m1, Pde(e, va.d)) && AgreeBut(m1, m2, Pte(e, va.d, va.t))
    ensures OnlyPage(m, m2, e, va)
  {
    forall r | r != Pte(e, va.d, va.t) && r != Pde(e, va.d)
      ensures Agree(m, m2, r)
    {
      assert Agree(m, m1, r) && Agree(m1, m2, r);
    }
  }

  lemma StillClear(m0: Memory, m1: Memory, m2: Memory, e: nat, d: nat, t: nat)
    requires AgreeOutsideTable(m0, m1, e, d) && AgreeBut(m1, m2, Pte(e, d, t))
    ensures AgreeOutsideTable(m0, m2, e, d)
    ensures TableOf(m2, e, d) == TableOf(m1, e, d)
    ensures forall u :: 0 <= u < t ==> EntryOf(m2, e, d, u) == EntryOf(m1, e, d, u)
  {
    forall r: Ref | r.PgDir? || r.e != e || r.d != d
      ensures Agree(m0, m2, r)
    {
      assert Agree(m0, m1, r) && Agree(m1, m2, r);
    }
    assert Agree(m1, m2, Pde(e, d));
    forall u | 0 <= u < t
      ensures EntryOf(m2, e, d, u) == EntryOf(m1, e, d, u)
    {
      assert Agree(m1, m2, Pte(e, d, u));
    }
  }

  lemma OutsideTransitive(m0: Memory, m1: Memory, m2: Memory, e: nat)
    requires AgreeOutside(m0, m1, e) && AgreeOutside(m1, m2, e)
    ensures AgreeOutside(m0, m2, e)
  {
    forall r: Ref | r.e != e
      ensures Agree(m0, m2, r)
    {
      assert Agree(m0, m1, r) && Agree(m1, m2, r);
    }
  }

  lemma TableStep(m0: Memory, m1: Memory, m2: Memory, e: nat, d: nat)
    requires AgreeOutsideTable(m0, m1, e, d) && AgreeOutsideTable(m1, m2, e, d)
    ensures AgreeOutside(m0, m2, e)
    ensures forall c :: 0 <= c < d ==> TableOf(m2, e, c) == TableOf(m0, e, c)
  {
    forall r: Ref | r.e != e
      ensures Agree(m0, m2, r)
    {
      assert Agree(m0, m1, r) && Agree(m1, m2, r);
    }
    forall c | 0 <= c < d
      ensures TableOf(m2, e, c) == TableOf(m0, e, c)
    {
      assert Agree(m0, m1, Pde(e, c)) && Agree(m1, m2, Pde(e, c));
    }
  }

  lemma AllTransitive(m: Memory, m1: Memory, m2: Memory)
    requires AgreeAll(m, m1) && AgreeAll(m1, m2)
    ensures AgreeAll(m, m2)
  {
    forall r
      ensures Agree(m, m2, r)
    {
      assert Agree(m, m1, r) && Agree(m1, m2, r);
    }
  }

  lemma OnlyPageThen(m: Memory, m1: Memory, m2: Memory, e: nat, va: Va)
    requires OnlyPage(m, m1, e, va) && AgreeAll(m1, m2)
    ensures OnlyPage(m, m2, e, va) && EntryOf(m2, e, va.d, va.t) == EntryOf(m1, e, va.d, va.t)
  {
    forall r | r != Pte(e, va.d, va.t) && r != Pde(e, va.d)
      ensures Agree(m, m2, r)
    {
      assert Agree(m, m1, r) && Agree(m1, m2, r);
    }
    assert Agree(m1, m2, Pte(e, va.d, va.t));
  }

  // What the MMU asks of both entries on the way, for a program outside the kernel.
  ghost predicate UserReads(m: Memory, e: nat, va: Va) {
    && PdeOf(m, e, va.d).flags & PTE_P != 0 && PdeOf(m, e, va.d).flags & PTE_U != 0
    && EntryOf(m, e, va.d, va.t).flags & PTE_P != 0 && EntryOf(m, e, va.d, va.t).flags & PTE_U != 0
  }

  ghost predicate UserWrites(m: Memory, e: nat, va: Va) {
    UserReads(m, e, va) && PdeOf(m, e, va.d).flags & PTE_W != 0 && EntryOf(m, e, va.d, va.t).flags & PTE_W != 0
  }

  // `va` of `e` is frame `pp` with exactly the permissions of `perm`.
  ghost predicate Mapped(m: Memory, e: nat, va: Va, pp: nat, perm: bv12) {
    && EntryOf(m, e, va.d, va.t).addr == pp && EntryOf(m, e, va.d, va.t).flags == perm | PTE_P
    && (UserReads(m, e, va) <==> perm & PTE_U != 0)
    && (UserWrites(m, e, va) <==> perm & PTE_U != 0 && perm & PTE_W != 0)
  }

  lemma PermBits(perm: bv12)
    ensures (perm | PTE_P) & PTE_P != 0
    ensures (perm | PTE_P) & PTE_U != 0 <==> perm & PTE_U != 0
    ensures (perm | PTE_P) & PTE_W != 0 <==> perm & PTE_W != 0
  {
  }

  // In a table that restricts nothing, an entry decides by its own flags.
  lemma EntryDecides(m: Memory, e: nat, va: Va, pp: nat, perm: bv12)
    requires Open(m) && TableOf(m, e, va.d).Some? && EntryOf(m, e, va.d, va.t) == Entry(pp, perm)
    ensures Mapped(m, e, va, pp, perm)
  {
    assert OpenAt(m, e, va.d);
    PermBits(perm);
    PermBits(PTE_W | PTE_U);
  }

  // PTE_U and PTE_P are set and nothing outside PTE_SYSCALL is.
  predicate PermOk(perm: bv12) {
    perm & PTE_U != 0 && perm & PTE_P != 0 && perm & !PTE_SYSCALL == 0
  }

  const MPENTRY_FRAME := 7     // MPENTRY_PADDR / PGSIZE
  const IOHOLE_FRAMES := 96    // (EXTPHYSMEM - IOPHYSMEM) / PGSIZE

  // Frames in use before there is a free list.
  predicate BootFrame(f: int, npagesBasemem: nat, extmemAlloc: nat) {
    f == 0 || f == MPENTRY_FRAME || npagesBasemem <= f < npagesBasemem + IOHOLE_FRAMES + extmemAlloc
  }

  function NoDirs(): (dirs: seq<Option<nat>>)
    ensures |dirs| == NENV && forall e :: 0 <= e < NENV ==> dirs[e] == None
  {
    seq(NENV, _ => None)
  }

  // page_init has dealt with the frames below `i`.
  ghost predicate Booted(fr: Frames, g: Shadow, n: nat, i: nat, base: nat, ext: nat) {
    && n == |fr.refs| == |fr.link| == |g.rs|
    && g.pending == {} && g.held == None && (forall f :: 0 <= f < n ==> g.rs[f] == {})
    && Listed(fr, g.free)
    && (forall f :: f in g.reserved ==> 0 <= f < i && BootFrame(f, base, ext))
    && (forall f :: 0 <= f < i && BootFrame(f, base, ext) ==> f in g.reserved)
    && (forall f :: f in g.free ==> 0 <= f < i && !BootFrame(f, base, ext) && fr.refs[f] == 0)
    && (forall f :: 0 <= f < i && !BootFrame(f, base, ext) ==> f in g.free)
  }

  lemma BootReserve(fr: Frames, g: Shadow, n: nat, i: nat, base: nat, ext: nat)
    requires i < n && Booted(fr, g, n, i, base, ext) && BootFrame(i, base, ext)
    ensures Booted(fr.(refs := fr.refs[i := 1], link := fr.link[i := None]), g.(reserved := g.reserved + {i}), n, i + 1, base, ext)
  {
    assert fr.link[i := None] == fr.link;
  }

  lemma BootFree(fr: Frames, g: Shadow, n: nat, i: nat, base: nat, ext: nat)
    requires i < n && Booted(fr, g, n, i, base, ext) && !BootFrame(i, base, ext)
    ensures Booted(Push(fr.(refs := fr.refs[i := 0]), i), g.(free := [i] + g.free), n, i + 1, base, ext)
  {
    PushListed(fr.(refs := fr.refs[i := 0]), g.free, i);
  }

  lemma BootDone(m: Memory, fr: Frames, g: Shadow, n: nat, base: nat, ext: nat)
    requires Booted(fr, g, n, n, base, ext) && Shaped(m) && |m.words| == n && m.pgdir == NoDirs()
    ensures Inv(m, fr, g)
  {
    assert forall r :: Target(m, r) == None;
  }

  class Kernel {
    var m: Memory        // physical memory, and env_pgdir of every environment
    var fr: Frames       // pages[] and page_free_list
    ghost var g: Shadow

    ghost predicate Consistent()
      reads this
    {
      Inv(m, fr, g)
    }

    // Consistent, and not in the middle of an operation.
    ghost predicate Valid()
      reads this
    {
      Consistent() && g.pending == {} && g.held == None
    }

    // page_init: every frame outside the ones in use at boot goes on the free list.
    constructor (ram: seq<seq<Word>>, npagesBasemem: nat, extmemAlloc: nat)
      requires forall f :: 0 <= f < |ram| ==> |ram[f]| == NPTENTRIES
      ensures Valid()
      ensures m == Memory(ram, NoDirs())
      ensures forall f :: 0 <= f < |ram| ==> (f in g.reserved <==> BootFrame(f, npagesBasemem, extmemAlloc))
      ensures forall f :: 0 <= f < |ram| ==> (f in g.free <==> !BootFrame(f, npagesBasemem, extmemAlloc))
    {
      m := Memory(ram, NoDirs());
      fr := Frames(seq(|ram|, _ => 0), seq(|ram|, _ => None), None);
      g := Shadow([], seq(|ram|, _ => {}), {}, {}, None);
      new;
      var i := 0;
      while i < |ram|
        invariant 0 <= i <= |ram| && m == Memory(ram, NoDirs())
        invariant Booted(fr, g, |ram|, i, npagesBasemem, extmemAlloc)
      {
        if i == 0 || i == MPENTRY_FRAME {
          BootReserve(fr, g, |ram|, i, npagesBasemem, extmemAlloc);
          fr := fr.(refs := fr.refs[i := 1], link := fr.link[i := None]);
          g := g.(reserved := g.reserved + {i});
        } else if npagesBasemem <= i < npagesBasemem + IOHOLE_FRAMES + extmemAlloc {
          BootReserve(fr, g, |ram|, i, npagesBasemem, extmemAlloc);
          fr := fr.(refs := fr.refs[i := 1], link := fr.link[i := None]);
          g := g.(reserved := g.reserved + {i});
        } else {
          BootFree(fr, g, |ram|, i, npagesBasemem, extmemAlloc);
          fr := fr.(refs := fr.refs[i := 0], link := fr.link[i := fr.head]);
          fr := fr.(head := Some(i));
          g := g.(free := [i] + g.free);
        }
        i := i + 1;
      }
      BootDone(m, fr, g, |ram|, npagesBasemem, extmemAlloc);
    }

    method PageAlloc(zero: bool) returns (result: Option<nat>)
      requires Consistent()
      modifies this
      ensures Consistent()
      ensures result.None? <==> old(g.free) == []
      ensures result.None? ==> m == old(m) && fr == old(fr) && g == old(g)
      ensures result.Some? ==>
                var p := result.value;
                && p == old(g.free)[0] && p < |m.words|
                && g == old(g).(free := old(g.free)[1..], pending := old(g.pending) + {p})
                && m == (if zero then Fill(old(m), p, ZeroPage()) else old(m))
                && AgreeAll(old(m), m)
    {
      if fr.head.None? {
        return None;
      }
      AllocKeeps(m, fr, g);
      var p := fr.head.value;
      result := Some(p);
      fr := fr.(head := fr.link[p]);
      fr := fr.(link := fr.link[p := None]);
      g := g.(free := g.free[1..], pending := g.pending + {p});
      if zero {
        FillKeeps(m, fr, g, p, ZeroPage());
        m := Fill(m, p, ZeroPage());
      }
    }

    method PageFree(pp: nat)
      requires Consistent() && pp in g.pending
      modifies this
      ensures Consistent()
      ensures m == old(m) && g == old(g).(free := [pp] + old(g.free), pending := old(g.pending) - {pp})
    {
      FreeKeeps(m, fr, g, pp);
      assert fr.refs[pp] == 0;
      assert fr.link[pp] == None;
      fr := fr.(link := fr.link[pp := fr.head]);
      fr := fr.(head := Some(pp));
      g := g.(free := [pp] + g.free, pending := g.pending - {pp});
    }

    method PageDecref(pp: nat)
      requires pp < |fr.refs| && pp < |fr.link| && fr.refs[pp] > 0 && (fr.refs[pp] == 1 ==> fr.link[pp] == None)
      modifies this`fr
      ensures fr == Decref(old(fr), pp)
      // one reference less, for this frame only
      ensures |fr.refs| == |old(fr).refs| && forall f :: 0 <= f < |fr.refs| ==>
                fr.refs[f] == if f == pp then old(fr).refs[f] - 1 else old(fr).refs[f]
      // with the last one the frame becomes the head of the free list, and otherwise the list stays
      ensures ReleasedWithLast(old(fr), fr, pp)
    {
      DecrefListed(fr, pp);
      fr := fr.(refs := fr.refs[pp := fr.refs[pp] - 1]);
      if fr.refs[pp] == 0 {
        assert fr.link[pp] == None;   // page_free checks this
        fr := fr.(link := fr.link[pp := fr.head]);
        fr := fr.(head := Some(pp));
      }
    }

    // Find the page table that holds the entry for `va`, allocating it if asked to.
    method PgdirWalk(e: nat, va: Va, create: bool) returns (table: Option<nat>)
      requires Consistent() && (create ==> g.held == None)
      requires e < NENV && m.pgdir[e].Some? && IsVa(va) && va.d < PDX_UTOP
      modifies this
      ensures Consistent() && m.pgdir == old(m.pgdir)
      ensures table == TableOf(m, e, va.d) && (table.Some? ==> table.value < |m.words|)
      ensures table.None? <==> old(TableOf(m, e, va.d)).None? && (!create || old(g.free) == [])
      ensures old(TableOf(m, e, va.d)).Some? || table.None? ==> m == old(m) && fr == old(fr) && g == old(g)
      ensures old(TableOf(m, e, va.d)).None? && table.Some? ==> g == Tabling(old(g), e, va.d)
      ensures AgreeBut(old(m), m, Pde(e, va.d))
    {
      PathKnown(m, g.rs, Pde(e, va.d));
      var pgdir := m.pgdir[e].value;
      if !Present(m.words[pgdir][va.d]) {
        if !create {
          return None;
        }
        var newPage := NewTable(e, va.d);
        if newPage.None? {
          return None;
        }
      }
      return Some(m.words[pgdir][va.d].addr);
    }

    // The allocating part of pgdir_walk.
    method NewTable(e: nat, d: nat) returns (newPage: Option<nat>)
      requires Consistent() && g.held == None
      requires e < NENV && m.pgdir[e].Some? && d < PDX_UTOP && TableOf(m, e, d) == None
      modifies this
      ensures Consistent() && m.pgdir == old(m.pgdir)
      ensures newPage.None? <==> old(g.free) == []
      ensures newPage.None? ==> m == old(m) && fr == old(fr) && g == old(g)
      ensures newPage.Some? ==>
                && newPage.value < |m.words| && TableOf(m, e, d) == newPage && g == Tabling(old(g), e, d)
                && PdeOf(m, e, d).flags == PTE_W | PTE_U | PTE_P
      ensures AgreeBut(old(m), m, Pde(e, d))
    {
      ghost var m0 := m;
      newPage := PageAlloc(true);
      if newPage.Some? {
        ghost var m1 := m;
        assert Agree(m0, m1, Pde(e, d));
        var np := newPage.value;
        PathKnown(m1, g.rs, Pde(e, d));
        var pgdir := m.pgdir[e].value;
        InstallTable(m1, fr, g, e, d, np, Entry(np, PTE_W | PTE_U));
        fr := fr.(refs := fr.refs[np := fr.refs[np] + 1]);
        m := Store(m, pgdir, d, Entry(np, PTE_W | PTE_U));
        g := g.(rs := Moved(g.rs, Pde(e, d), None, Some(np)), pending := g.pending - {np});
        AgreeTransitive(m0, m1, m, Pde(e, d));
      }
    }

    method PageLookup(e: nat, va: Va) returns (page: Option<nat>)
      requires Consistent()
      requires e < NENV && m.pgdir[e].Some? && IsVa(va) && va.d < PDX_UTOP
      modifies this
      ensures m == old(m) && fr == old(fr) && g == old(g)
      ensures page == Follow(EntryOf(m, e, va.d, va.t))
    {
      var table := PgdirWalk(e, va, false);
      if table.None? {
        return None;
      }
      if !Present(m.words[table.value][va.t]) {
        return None;
      }
      return Some(m.words[table.value][va.t].addr);
    }

    method PageRemove(e: nat, va: Va)
      requires Consistent()
      requires e < NENV && m.pgdir[e].Some? && IsVa(va) && va.d < PDX_UTOP
      modifies this
      ensures Consistent() && m.pgdir == old(m.pgdir)
      ensures old(Follow(EntryOf(m, e, va.d, va.t))).None? ==> m == old(m) && fr == old(fr) && g == old(g)
      ensures old(Follow(EntryOf(m, e, va.d, va.t))).Some? ==>
                var f := old(EntryOf(m, e, va.d, va.t)).addr;
                && EntryOf(m, e, va.d, va.t) == ZERO
                && f < |old(fr).refs| && f < |old(fr).link| && old(fr).refs[f] > 0
                && fr == Decref(old(fr), f)
                && g == old(g).(rs := Moved(old(g.rs), Pte(e, va.d, va.t), Some(f), None), free := Released(old(fr), old(g), f))
      ensures AgreeBut(old(m), m, Pte(e, va.d, va.t))
    {
      var page := PageLookup(e, va);
      if page.None? {
        return;
      }
      PathKnown(m, g.rs, Pte(e, va.d, va.t));
      ghost var table := TableOf(m, e, va.d).value;
      RemovePage(m, fr, g, e, va.d, va.t, page.value);
      ghost var fr0, g0 := fr, g;
      PageDecref(page.value);
      var entry := m.words[m.pgdir[e].value][va.d].addr;
      assert entry == table;
      m := Store(m, entry, va.t, ZERO);
      g := g.(rs := Moved(g.rs, Pte(e, va.d, va.t), Some(page.value), None), free := Released(fr0, g0, page.value));
    }

    // Map frame `pp` at `va`, replacing whatever is there.
    method PageInsert(e: nat, pp: nat, va: Va, perm: bv12) returns (err: Error)
      requires Consistent() && g.held == None
      requires e < NENV && m.pgdir[e].Some? && IsVa(va) && va.d < PDX_UTOP
      requires DataFrame(g.rs, pp) && pp !in g.reserved && pp !in g.free
      modifies this
      ensures Consistent() && m.pgdir == old(m.pgdir) && g.held == None && g.reserved == old(g.reserved)
      ensures err == Ok || err == NoMem
      ensures err == NoMem <==> old(TableOf(m, e, va.d)).None? && old(g.free) == []
      ensures err == NoMem ==> m == old(m) && fr == old(fr) && g == old(g)
      ensures err == Ok ==> Mapped(m, e, va, pp, perm) && EntryOf(m, e, va.d, va.t) == Entry(pp, perm)
                            && g.pending == old(g.pending) - {pp}
      ensures OnlyPage(old(m), m, e, va)
    {
      ghost var m0 := m;
      var entry := PgdirWalk(e, va, true);
      if entry.None? {
        return NoMem;
      }
      ghost var m1 := m;
      assert DataFrame(g.rs, pp) && pp !in g.free;
      Replace(e, pp, va, perm, entry.value);
      OnlyPageFrom(m0, m1, m, e, va);
      assert Agree(m1, m, Pde(e, va.d));
      EntryDecides(m, e, va, pp, perm);
      return Ok;
    }

    // page_insert once the page table exists.  The count of `pp` goes up before the old
    // page goes, so that re-inserting the page already there does not free it.
    method Replace(e: nat, pp: nat, va: Va, perm: bv12, entry: nat)
      requires Consistent() && g.held == None
      requires e < NENV && m.pgdir[e].Some? && IsVa(va) && va.d < PDX_UTOP
      requires DataFrame(g.rs, pp) && pp !in g.reserved && pp !in g.free
      requires TableOf(m, e, va.d) == Some(entry) && entry < |m.words|
      modifies this
      ensures Consistent() && m.pgdir == old(m.pgdir) && g.held == None && g.reserved == old(g.reserved)
      ensures EntryOf(m, e, va.d, va.t) == Entry(pp, perm) && g.pending == old(g.pending) - {pp}
      ensures AgreeBut(old(m), m, Pte(e, va.d, va.t))
    {
      ghost var m0 := m;
      Incref(pp);
      Vacate(e, va, entry);
      ghost var m1 := m;
      assert Agree(m0, m1, Pde(e, va.d));
      SetEntry(e, pp, va, perm, entry);
      AgreeTransitive(m0, m1, m, Pte(e, va.d, va.t));
    }

    // Unmap `va` if something is mapped there; `entry` is its page table.
    method Vacate(e: nat, va: Va, entry: nat)
      requires Consistent()
      requires e < NENV && m.pgdir[e].Some? && IsVa(va) && va.d < PDX_UTOP
      requires TableOf(m, e, va.d) == Some(entry) && entry < |m.words|
      modifies this
      ensures Consistent() && m.pgdir == old(m.pgdir) && |g.rs| == old(|g.rs|)
      ensures g.held == old(g.held) && g.pending == old(g.pending) && g.reserved == old(g.reserved)
      ensures forall f :: DataFrame(old(g.rs), f) ==> DataFrame(g.rs, f)
      ensures !Present(EntryOf(m, e, va.d, va.t))
      ensures AgreeBut(old(m), m, Pte(e, va.d, va.t))
    {
      if Present(m.words[entry][va.t]) {
        PageRemove(e, va);
      }
    }

    // pp->pp_ref++
    method Incref(pp: nat)
      requires Consistent() && g.held == None && pp < |g.rs| && pp !in g.reserved && pp !in g.free
      modifies this`fr, this`g
      ensures Consistent() && g == old(g).(held := Some(pp), pending := old(g.pending) - {pp})
    {
      HoldKeeps(m, fr, g, pp);
      fr := fr.(refs := fr.refs[pp := fr.refs[pp] + 1]);
      g := g.(held := Some(pp), pending := g.pending - {pp});
    }

    // The last line of page_insert.
    method SetEntry(e: nat, pp: nat, va: Va, perm: bv12, entry: nat)
      requires Consistent() && g.held == Some(pp) && DataFrame(g.rs, pp) && va.t < NPTENTRIES
      requires TableOf(m, e, va.d) == Some(entry) && entry < |m.words|
      requires Follow(EntryOf(m, e, va.d, va.t)) == None
      modifies this
      ensures Consistent() && m.pgdir == old(m.pgdir)
      ensures g.held == None && g.reserved == old(g.reserved) && g.pending == old(g.pending)
      ensures EntryOf(m, e, va.d, va.t) == Entry(pp, perm)
      ensures AgreeBut(old(m), m, Pte(e, va.d, va.t))
    {
      InsertPage(m, fr, g, e, va.d, va.t, pp, Entry(pp, perm));
      m := Store(m, entry, va.t, Entry(pp, perm));
      g := g.(rs := Moved(g.rs, Pte(e, va.d, va.t), None, Some(pp)), held := None);
    }

    // The part of env_free that empties one page table.
    method ClearTable(e: nat, pdeno: nat, pt: nat)
      requires Valid() && e < NENV && m.pgdir[e].Some? && pdeno < PDX_UTOP && TableOf(m, e, pdeno) == Some(pt)
      modifies this
      ensures Valid() && m.pgdir == old(m.pgdir) && g.reserved == old(g.reserved) && |g.rs| == old(|g.rs|)
      ensures TableOf(m, e, pdeno) == Some(pt)
      ensures forall t :: 0 <= t < NPTENTRIES ==> !Present(EntryOf(m, e, pdeno, t))
      ensures AgreeOutsideTable(old(m), m, e, pdeno)
    {
      PathKnown(m, g.rs, Pde(e, pdeno));
      var pteno := 0;
      while pteno < NPTENTRIES
        invariant 0 <= pteno <= NPTENTRIES
        invariant Valid() && m.pgdir == old(m.pgdir) && g.reserved == old(g.reserved) && |g.rs| == old(|g.rs|)
        invariant TableOf(m, e, pdeno) == Some(pt) && pt < |m.words|
        invariant forall t :: 0 <= t < pteno ==> !Present(EntryOf(m, e, pdeno, t))
        invariant AgreeOutsideTable(old(m), m, e, pdeno)
      {
        ClearEntry(e, pdeno, pteno, pt, old(m));
        pteno := pteno + 1;
      }
    }

    method ClearEntry(e: nat, pdeno: nat, pteno: nat, pt: nat, ghost m0: Memory)
      requires Valid() && e < NENV && m.pgdir[e].Some? && pdeno < PDX_UTOP && pteno < NPTENTRIES
      requires TableOf(m, e, pdeno) == Some(pt) && pt < |m.words| && AgreeOutsideTable(m0, m, e, pdeno)
      requires forall t :: 0 <= t < pteno ==> !Present(EntryOf(m, e, pdeno, t))
      modifies this
      ensures Valid() && m.pgdir == old(m.pgdir) && g.reserved == old(g.reserved) && |g.rs| == old(|g.rs|)
      ensures TableOf(m, e, pdeno) == Some(pt) && pt < |m.words| && AgreeOutsideTable(m0, m, e, pdeno)
      ensures forall t :: 0 <= t <= pteno ==> !Present(EntryOf(m, e, pdeno, t))
    {
      Vacate(e, Va(pdeno, pteno, 0), pt);
      StillClear(m0, old(m), m, e, pdeno, pteno);
    }

    // The part of env_free that gives one page table back.
    method FreeTable(e: nat, pdeno: nat)
      requires Valid() && e < NENV && m.pgdir[e].Some? && pdeno < PDX_UTOP && TableOf(m, e, pdeno).Some?
      modifies this
      ensures Valid() && m.pgdir == old(m.pgdir) && g.reserved == old(g.reserved) && |g.rs| == old(|g.rs|)
      ensures TableOf(m, e, pdeno) == None
      ensures AgreeOutside(old(m), m, e)
      ensures forall d :: 0 <= d < pdeno ==> TableOf(m, e, d) == TableOf(old(m), e, d)
    {
      PathKnown(m, g.rs, Pde(e, pdeno));
      var pgdir := m.pgdir[e].value;
      var pa := m.words[pgdir][pdeno].addr;
      ClearTable(e, pdeno, pa);
      ghost var m1, fr1 := m, fr;
      RemoveTable(m, fr, g, e, pdeno, pa);
      m := Store(m, pgdir, pdeno, ZERO);
      PageDecref(pa);
      g := g.(rs := Moved(g.rs, Pde(e, pdeno), Some(pa), None), free := Released(fr1, g, pa));
      TableStep(old(m), m1, m, e, pdeno);
    }

    // Free the address space of `e`.
    method EnvFree(e: nat)
      requires Valid() && e < NENV && m.pgdir[e].Some?
      modifies this
      ensures Valid() && m.pgdir == old(m.pgdir)[e := None] && g.reserved == old(g.reserved)
      // nobody else's translations change
      ensures AgreeOutside(old(m), m, e)
      // exactly the references of the others are left, and the rest is free
      ensures |g.rs| == old(|g.rs|)
      ensures forall f, r :: 0 <= f < |g.rs| ==> (r in g.rs[f] <==> r in old(g.rs)[f] && r.e != e)
      ensures forall f :: 0 <= f < |g.rs| && f !in g.reserved && (forall r :: r in old(g.rs)[f] ==> r.e == e) ==> f in g.free
    {
      ghost var m0, g0 := m, g;
      FreeTables(e);
      PathKnown(m, g.rs, PgDir(e));
      ghost var m1, fr1 := m, fr;
      var pa := m.pgdir[e].value;
      RemoveDir(m, fr, g, e, pa);
      m := SetDir(m, e, None);
      PageDecref(pa);
      g := g.(rs := Moved(g.rs, PgDir(e), Some(pa), None), free := Released(fr1, g, pa));
      OutsideTransitive(m0, m1, m, e);
      forall f | 0 <= f < |g.rs|
        ensures forall r :: r in g.rs[f] <==> r in g0.rs[f] && r.e != e
        ensures f !in g.reserved && (forall r :: r in g0.rs[f] ==> r.e == e) ==> f in g.free
      {
        OnlyOthersLeft(m0, g0, m, fr, g, e, f);
      }
    }

    method FreeTables(e: nat)
      requires Valid() && e < NENV && m.pgdir[e].Some?
      modifies this
      ensures Valid() && m.pgdir == old(m.pgdir) && g.reserved == old(g.reserved) && |g.rs| == old(|g.rs|)
      ensures AgreeOutside(old(m), m, e)
      ensures forall d :: 0 <= d < PDX_UTOP ==> TableOf(m, e, d) == None
    {
      var pgdir := m.pgdir[e].value;
      var pdeno := 0;
      while pdeno < PDX_UTOP
        invariant 0 <= pdeno <= PDX_UTOP
        invariant Valid() && m.pgdir == old(m.pgdir) && g.reserved == old(g.reserved) && |g.rs| == old(|g.rs|)
        invariant AgreeOutside(old(m), m, e)
        invariant forall d :: 0 <= d < pdeno ==> TableOf(m, e, d) == None
      {
        PathKnown(m, g.rs, PgDir(e));
        if Present(m.words[pgdir][pdeno]) {
          ghost var m1 := m;
          FreeTable(e, pdeno);
          OutsideTransitive(old(m), m1, m, e);
        }
        pdeno := pdeno + 1;
      }
    }

    // Give environment `e` an address space: nothing below UTOP, the kernel's entries
    // above it, and the directory itself at UVPT.
    method EnvSetupVm(e: nat, kernPgdir: seq<Word>) returns (err: Error)
      requires Valid() && e < NENV && m.pgdir[e] == None && |kernPgdir| == NPTENTRIES
      modifies this
      ensures Valid() && g.reserved == old(g.reserved)
      ensures err == (if old(g.free) == [] then NoMem else Ok)
      ensures err == NoMem ==> m == old(m) && fr == old(fr) && g == old(g)
      ensures err == Ok ==>
                var p := old(g.free)[0];
                && p < |m.words| && m.pgdir == old(m.pgdir)[e := Some(p)]
                && (forall d :: 0 <= d < PDX_UTOP ==> TableOf(m, e, d) == None)
                && (forall d :: PDX_UTOP <= d < NPTENTRIES && d != PDX_UVPT ==> m.words[p][d] == kernPgdir[d])
                && m.words[p][PDX_UVPT].addr == p && m.words[p][PDX_UVPT].flags == PTE_U | PTE_P
      ensures AgreeBut(old(m), m, PgDir(e))
    {
      ghost var m0 := m;
      var page := PageAlloc(true);
      if page.None? {
        return NoMem;
      }
      var p := page.value;
      ghost var m1 := m;
      InstallDir(m, fr, g, e, p);
      m := SetDir(m, e, Some(p));
      fr := fr.(refs := fr.refs[p := fr.refs[p] + 1]);
      g := g.(rs := Moved(g.rs, PgDir(e), None, Some(p)), pending := g.pending - {p});
      ghost var m2 := m;
      AgreeTransitive(m0, m1, m2, PgDir(e));
      MapKernel(e, p, kernPgdir);
      AgreeTransitive(m0, m2, m, PgDir(e));
      return Ok;
    }

    method MapKernel(e: nat, p: nat, kernPgdir: seq<Word>)
      requires Valid() && DirOf(m, e) == Some(p) && p < |m.words| && |kernPgdir| == NPTENTRIES
      requires m.words[p] == ZeroPage()
      modifies this`m
      ensures Valid() && m.pgdir == old(m.pgdir) && |m.words| == old(|m.words|)
      ensures AgreeAll(old(m), m)
      ensures forall d :: 0 <= d < PDX_UTOP ==> m.words[p][d] == ZERO
      ensures forall d :: PDX_UTOP <= d < NPTENTRIES && d != PDX_UVPT ==> m.words[p][d] == kernPgdir[d]
      ensures m.words[p][PDX_UVPT] == Entry(p, PTE_U)
    {
      var i := 0;
      while i < PDX_UTOP
        invariant 0 <= i <= PDX_UTOP && m == old(m)
      {
        assert m.words[p][i := ZERO] == m.words[p];
        m := Store(m, p, i, ZERO);
        i := i + 1;
      }
      while i < NPTENTRIES
        invariant PDX_UTOP <= i <= NPTENTRIES
        invariant Valid() && m.pgdir == old(m.pgdir) && |m.words| == old(|m.words|) && AgreeAll(old(m), m)
        invariant forall d :: 0 <= d < PDX_UTOP ==> m.words[p][d] == ZERO
        invariant forall d :: PDX_UTOP <= d < i ==> m.words[p][d] == kernPgdir[d]
      {
        ghost var m1 := m;
        StoreKernelPde(m, fr, g, e, i, kernPgdir[i]);
        m := Store(m, p, i, kernPgdir[i]);
        AllTransitive(old(m), m1, m);
        i := i + 1;
      }
      ghost var m2 := m;
      StoreKernelPde(m, fr, g, e, PDX_UVPT, Entry(p, PTE_U));
      m := Store(m, p, PDX_UVPT, Entry(p, PTE_U));
      AllTransitive(old(m), m2, m);
    }

    method SysPageAlloc(env: Option<nat>, va: Va, perm: bv12) returns (err: Error)
      requires Valid() && IsVa(va)
      requires env.Some? ==> env.value < NENV && m.pgdir[env.value].Some?
      modifies this
      ensures Valid() && m.pgdir == old(m.pgdir) && g.reserved == old(g.reserved)
      ensures err == Ok <==>
                && va.d < PDX_UTOP && PermOk(perm) && env.Some?
                && |old(g.free)| >= (if old(TableOf(m, env.value, va.d)).Some? then 1 else 2)
      ensures err != Ok ==> m == old(m) && g == old(g)
      // a fresh frame, cleared, which the program reads, and writes if it asked to
      ensures err == Ok ==>
                var p := old(g.free)[0];
                && p < |m.words| && Mapped(m, env.value, va, p, perm)
                && m.words[p] == ZeroPage() && OnlyPage(old(m), m, env.value, va)
    {
      if va.d >= PDX_UTOP {
        return Invalid;
      }
      if perm & PTE_U == 0 || perm & PTE_P == 0 {
        return BadEnv;
      }
      if perm & !(PTE_U | PTE_P | PTE_W | PTE_AVAIL) != 0 {
        return NoMem;
      }
      if env.None? {
        return BadEnv;
      }
      err := MapFresh(env.value, va, perm);
    }

    // Allocate a frame and map it; put it back if there is no room for a page table.
    method MapFresh(e: nat, va: Va, perm: bv12) returns (err: Error)
      requires Valid() && IsVa(va) && va.d < PDX_UTOP && e < NENV && m.pgdir[e].Some?
      modifies this
      ensures Valid() && m.pgdir == old(m.pgdir) && g.reserved == old(g.reserved)
      ensures err == if |old(g.free)| >= (if old(TableOf(m, e, va.d)).Some? then 1 else 2) then Ok else NoMem
      ensures err != Ok ==> m == old(m) && g == old(g)
      ensures err == Ok ==>
                var p := old(g.free)[0];
                && p < |m.words| && Mapped(m, e, va, p, perm)
                && m.words[p] == ZeroPage() && OnlyPage(old(m), m, e, va)
    {
      ghost var g0 := g;
      var page := PageAlloc(false);
      if page.None? {
        return NoMem;
      }
      var p := page.value;
      err := PageInsert(e, p, va, perm);
      if err == NoMem {
        PageFree(p);
        assert g.free == g0.free && g.pending == g0.pending;
        return NoMem;
      }
      ghost var m1 := m;
      MappedIsData(m1, g.rs, e, va.d, va.t);
      ZeroFrame(p);
      OnlyPageThen(old(m), m1, m, e, va);
      assert Agree(m1, m, Pde(e, va.d));
    }

    // memset(page2kva(p), 0, PGSIZE)
    method ZeroFrame(p: nat)
      requires Valid() && DataFrame(g.rs, p)
      modifies this`m
      ensures Valid() && m == Fill(old(m), p, ZeroPage()) && AgreeAll(old(m), m)
    {
      FillKeeps(m, fr, g, p, ZeroPage());
      m := Fill(m, p, ZeroPage());
    }

    method SysPageMap(src: Option<nat>, srcva: Va, dst: Option<nat>, dstva: Va, perm: bv12) returns (err: Error)
      requires Valid() && IsVa(srcva) && IsVa(dstva)
      requires src.Some? ==> src.value < NENV && m.pgdir[src.value].Some?
      requires dst.Some? ==> dst.value < NENV && m.pgdir[dst.value].Some?
      modifies this
      ensures Valid() && m.pgdir == old(m.pgdir) && g.reserved == old(g.reserved)
      ensures err == Ok <==>
                && src.Some? && dst.Some?
                && srcva.d < PDX_UTOP && srcva.off == 0 && dstva.d < PDX_UTOP && dstva.off == 0 && PermOk(perm)
                && Present(old(EntryOf(m, src.value, srcva.d, srcva.t)))
                && (perm & PTE_W != 0 ==> old(EntryOf(m, src.value, srcva.d, srcva.t)).flags & PTE_W != 0)
                && (old(TableOf(m, dst.value, dstva.d)).Some? || old(g.free) != [])
      ensures err != Ok ==> m == old(m) && fr == old(fr) && g == old(g)
      ensures err == Ok ==>
                && Mapped(m, dst.value, dstva, old(EntryOf(m, src.value, srcva.d, srcva.t)).addr, perm)
                && OnlyPage(old(m), m, dst.value, dstva)
    {
      if src.None? || dst.None? {
        return BadEnv;
      }
      if srcva.d >= PDX_UTOP || srcva.off != 0 || dstva.d >= PDX_UTOP || dstva.off != 0 {
        return Invalid;
      }
      if perm & PTE_U == 0 || perm & PTE_P == 0 || perm & !PTE_SYSCALL != 0 {
        return Invalid;
      }
      var p := PageLookup(src.value, srcva);
      if p.None? {
        return Invalid;
      }
      PathKnown(m, g.rs, Pte(src.value, srcva.d, srcva.t));
      var table := m.words[m.pgdir[src.value].value][srcva.d].addr;
      if perm & PTE_W != 0 && m.words[table][srcva.t].flags & PTE_W == 0 {
        return Invalid;
      }
      MappedIsData(m, g.rs, src.value, srcva.d, srcva.t);
      err := PageInsert(dst.value, p.value, dstva, perm);
    }

    method SysPageUnmap(env: Option<nat>, va: Va) returns (err: Error)
      requires Valid() && IsVa(va)
      requires env.Some? ==> env.value < NENV && m.pgdir[env.value].Some?
      modifies this
      ensures Valid() && m.pgdir == old(m.pgdir) && g.reserved == old(g.reserved)
      ensures err == Ok <==> env.Some? && va.d < PDX_UTOP && va.off == 0
      ensures err != Ok ==> m == old(m) && fr == old(fr) && g == old(g)
      ensures err == Ok ==>
                !Present(EntryOf(m, env.value, va.d, va.t)) && AgreeBut(old(m), m, Pte(env.value, va.d, va.t))
    {
      if env.None? {
        return BadEnv;
      }
      if va.d >= PDX_UTOP || va.off != 0 {
        return Invalid;
      }
      PageRemove(env.value, va);
      return Ok;
    }

    // A user program stores a word through one of its own writable mappings.
    method UserStore(e: nat, va: Va, i: nat, w: Word)
      requires Valid() && e < NENV && IsVa(va) && i < NPTENTRIES && va.d < PDX_UTOP
      requires Present(EntryOf(m, e, va.d, va.t)) && EntryOf(m, e, va.d, va.t).flags & PTE_W != 0
      modifies this`m
      ensures Valid() && m.pgdir == old(m.pgdir)
      ensures AgreeAll(old(m), m)
      ensures var f := EntryOf(m, e, va.d, va.t).addr;
              f < |old(m.words)| && m.words == old(m.words)[f := old(m.words)[f][i := w]]
    {
      PathKnown(m, g.rs, Pte(e, va.d, va.t));
      MappedIsData(m, g.rs, e, va.d, va.t);
      var table := m.words[m.pgdir[e].value][va.d].addr;
      var f := m.words[table][va.t].addr;
      ghost var m0 := m;
      FillKeeps(m, fr, g, f, m.words[f][i := w]);
      m := Store(m, f, i, w);
      assert Agree(m0, m, Pte(e, va.d, va.t));
    }
  }
}
