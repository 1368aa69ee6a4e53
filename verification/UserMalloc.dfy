/**
 malloc() and free() of the user library (lab/lib/malloc.c): address space is handed out in
 order, and each page counts in its last word the chunks whose memory ends in it.

 A page of the heap is either marked PTE_CONTINUED or holds such a count.  The counts are
 unbounded.  `live` names the chunks handed out and not yet freed; two chunks of size 0
 may be at one address, so they are numbered.
 */
module UserMalloc {

  const PGSIZE := 4096
  const MAXMALLOC := 1024 * 1024
  const MBEGIN := 0x08000000
  const MEND := 0x10000000
  const FIRST := 0x8000          // PGNUM(mbegin)
  const END := 0x10000           // PGNUM(mend)
  const UTOP := 0xEEC00000       // no page is mapped there for a user
  const PAGES := 0x100000        // pages of the 32-bit address space

  datatype Page = Page(continued: bool, ref: nat)
  type PageTable = map<nat, Page>

  // `n` bytes at `v`, from page `first` on; the count of page `ref` includes it.
  datatype Chunk = Chunk(v: nat, n: nat, first: nat, ref: nat)
  type Chunks = map<nat, Chunk>

  // The address page * PGSIZE + off.
  datatype Place = Place(page: nat, off: nat)

  // mptr is 0 until the first call.
  function PlaceOf(mptr: nat): Place {
    if mptr == 0 then Place(FIRST, 0) else Place(mptr / PGSIZE, mptr % PGSIZE)
  }

  function Address(m: Place): nat { m.page * PGSIZE + m.off }

  // ROUNDUP(n, 4) on a 32-bit n.
  function Rounded(n: nat): nat {
    (n + 3) % 0x1_0000_0000 / 4 * 4
  }

  // Requests for the last three sizes wrap around to nothing.
  lemma RoundedCovers(n: nat)
    requires n < 0x1_0000_0000
    ensures Rounded(n) % 4 == 0
    ensures n <= Rounded(n) <==> n <= 0xFFFF_FFFC
    ensures n > 0xFFFF_FFFC ==> Rounded(n) == 0
  {
    if n <= 0xFFFF_FFFC {
      assert (n + 3) % 0x1_0000_0000 == n + 3;
    } else {
      assert (n + 3) % 0x1_0000_0000 == n + 3 - 0x1_0000_0000;
    }
  }

  // ------------------------------------------------------------------
  // Chunks and their pages
  // ------------------------------------------------------------------

  // The chunk lies in pages first .. ref of the heap and leaves the last word of page
  // `ref` alone; it has more than one page only if it starts one.
  predicate Shaped(c: Chunk) {
    && FIRST <= c.first <= c.ref < END
    && c.first * PGSIZE <= c.v < (c.first + 1) * PGSIZE
    && c.ref * PGSIZE <= c.v + c.n <= c.ref * PGSIZE + PGSIZE - 4
    && (c.first < c.ref ==> c.v == c.first * PGSIZE)
  }

  predicate Mapped(pt: PageTable, p: nat, continued: bool) {
    p in pt && pt[p].continued == continued
  }

  // Every page under the chunk is mapped, and only the last one has a count.
  ghost predicate ChunkOk(pt: PageTable, c: Chunk) {
    && Shaped(c)
    && (forall p :: c.first <= p < c.ref ==> Mapped(pt, p, true))
    && Mapped(pt, c.ref, false)
  }

  // The chunks share no byte, and no page but the last of both.
  predicate Apart(c: Chunk, d: Chunk) {
    && (c.v + c.n <= d.v || d.v + d.n <= c.v)
    && (c.ref < d.first || d.ref < c.first || (c.ref == d.ref && (c.first == c.ref || d.first == d.ref)))
  }

  ghost function Users(live: Chunks, p: nat): set<nat> {
    set i | i in live && live[i].ref == p
  }

  // malloc() holds a reference on the page it is filling.
  function Own(m: Place, p: nat): nat {
    if m.off != 0 && m.page == p then 1 else 0
  }

  // A page filled up to its start keeps the reference malloc() took on it.
  function Lost(lost: set<nat>, p: nat): nat {
    if p in lost then 1 else 0
  }

  ghost predicate Counted(pt: PageTable, m: Place, live: Chunks, lost: set<nat>, p: nat) {
    && (FIRST <= p < END && Mapped(pt, p, false) ==> pt[p].ref == |Users(live, p)| + Own(m, p) + Lost(lost, p) && pt[p].ref > 0)
    && (p in lost ==> FIRST <= p < END && Mapped(pt, p, false))
  }

  // A page marked PTE_CONTINUED is part of a live chunk.
  ghost predicate Inside(live: Chunks, p: nat) {
    exists i :: i in live && live[i].first <= p < live[i].ref
  }

  ghost predicate Continues(pt: PageTable, live: Chunks, p: nat) {
    FIRST <= p < END && Mapped(pt, p, true) ==> Inside(live, p)
  }

  // The page being filled is free from mptr up to its count.
  ghost predicate MptrOk(pt: PageTable, m: Place, live: Chunks) {
    && FIRST <= m.page < END && m.off % 4 == 0 && m.off <= PGSIZE - 4
    && (m.off != 0 ==> Mapped(pt, m.page, false))
    && (m.off != 0 ==> forall i :: i in live && live[i].ref == m.page ==> live[i].v + live[i].n <= Address(m))
  }

  ghost predicate Inv(pt: PageTable, m: Place, live: Chunks, lost: set<nat>) {
    && MptrOk(pt, m, live)
    && (forall i {:trigger ChunkOk(pt, live[i])} :: i in live ==> ChunkOk(pt, live[i]))
    && (forall i, j {:trigger Apart(live[i], live[j])} :: i in live && j in live && i != j ==> Apart(live[i], live[j]))
    && (forall p {:trigger Counted(pt, m, live, lost, p)} :: Counted(pt, m, live, lost, p))
    && (forall p {:trigger Continues(pt, live, p)} :: Continues(pt, live, p))
  }

  // The pages of the heap that are mapped: those under a live chunk, the one malloc() is
  // filling and the lost ones.
  lemma MappedPages(pt: PageTable, m: Place, live: Chunks, lost: set<nat>, p: nat)
    requires Inv(pt, m, live, lost) && FIRST <= p < END
    ensures p in pt <==> Inside(live, p) || Users(live, p) != {} || Own(m, p) == 1 || p in lost
  {
    assert Counted(pt, m, live, lost, p) && Continues(pt, live, p);
    if Inside(live, p) {
      var i :| i in live && live[i].first <= p < live[i].ref;
      assert ChunkOk(pt, live[i]) && Mapped(pt, p, true);
    } else if Users(live, p) != {} {
      var i :| i in Users(live, p);
      assert ChunkOk(pt, live[i]);
    }
  }

  // What the invariant promises a caller: each byte of a live chunk is in a mapped page,
  // is not part of its count, and is in no other live chunk.
  lemma LiveChunks(pt: PageTable, m: Place, live: Chunks, lost: set<nat>, i: nat, a: nat)
    requires Inv(pt, m, live, lost) && i in live && live[i].v <= a < live[i].v + live[i].n
    ensures a / PGSIZE in pt
    ensures !pt[a / PGSIZE].continued ==> a % PGSIZE < PGSIZE - 4
    ensures forall j :: j in live && j != i ==> !(live[j].v <= a < live[j].v + live[j].n)
  {
    assert ChunkOk(pt, live[i]);
    assert a / PGSIZE < live[i].ref ==> Mapped(pt, a / PGSIZE, true);
    forall j | j in live && j != i ensures !(live[j].v <= a < live[j].v + live[j].n) {
      assert Apart(live[i], live[j]);
    }
  }

  // ------------------------------------------------------------------
  // free()
  // ------------------------------------------------------------------

  // --*ref, and the page goes with the last reference.
  function Unref(pt: PageTable, p: nat): PageTable
    requires p in pt && pt[p].ref > 0
  {
    if pt[p].ref == 1 then pt - {p} else pt[p := pt[p].(ref := pt[p].ref - 1)]
  }

  function Without(pt: PageTable, lo: nat, hi: nat): PageTable {
    map p | p in pt && !(lo <= p < hi) :: pt[p]
  }

  lemma FewerUsers(live: Chunks, i: nat, p: nat)
    requires i in live
    ensures |Users(live - {i}, p)| == |Users(live, p)| - (if live[i].ref == p then 1 else 0)
  {
    if live[i].ref == p {
      assert Users(live, p) == Users(live - {i}, p) + {i};
    } else {
      assert Users(live, p) == Users(live - {i}, p);
    }
  }

  lemma MoreUsers(live: Chunks, i: nat, c: Chunk, p: nat)
    requires i !in live
    ensures |Users(live[i := c], p)| == |Users(live, p)| + (if c.ref == p then 1 else 0)
  {
    if c.ref == p {
      assert Users(live[i := c], p) == Users(live, p) + {i};
    } else {
      assert Users(live[i := c], p) == Users(live, p);
    }
  }

  // A chunk keeps the count of its page above zero.
  lemma UserCounts(live: Chunks, p: nat, i: nat)
    requires i in live && live[i].ref == p
    ensures |Users(live, p)| >= 1
  {
    assert Users(live, p) == {i} + (Users(live, p) - {i});
  }

  // Pages are kept for the chunk.
  lemma ChunkKept(pt: PageTable, pt': PageTable, c: Chunk)
    requires ChunkOk(pt, c)
    requires forall p :: c.first <= p <= c.ref && p in pt ==> Mapped(pt', p, pt[p].continued)
    ensures ChunkOk(pt', c)
  {
    forall p | c.first <= p < c.ref ensures Mapped(pt', p, true) {
      assert Mapped(pt, p, true);
    }
  }

  // What is still marked is part of another chunk.
  lemma StillInside(pt: PageTable, pt': PageTable, live: Chunks, i: nat, p: nat)
    requires Continues(pt, live, p) && i in live && (Mapped(pt', p, true) ==> Mapped(pt, p, true))
    requires live[i].first <= p < live[i].ref ==> p !in pt'
    ensures Continues(pt', live - {i}, p)
  {
    if FIRST <= p < END && Mapped(pt', p, true) {
      var j :| j in live && live[j].first <= p < live[j].ref;
      assert j in live - {i};
    }
  }

  lemma FreeKeeps(pt: PageTable, m: Place, live: Chunks, lost: set<nat>, i: nat)
    requires Inv(pt, m, live, lost) && i in live
    ensures var c := live[i];
            && Mapped(pt, c.ref, false) && pt[c.ref].ref > 0
            && Inv(Unref(Without(pt, c.first, c.ref), c.ref), m, live - {i}, lost)
  {
    var c := live[i];
    assert ChunkOk(pt, c) && Counted(pt, m, live, lost, c.ref);
    var pt', live' := Unref(Without(pt, c.first, c.ref), c.ref), live - {i};
    FewerUsers(live, i, c.ref);
    UserCounts(live, c.ref, i);
    forall p: nat ensures Counted(pt', m, live', lost, p) {
      assert Counted(pt, m, live, lost, p);
      assert c.first <= p < c.ref ==> Mapped(pt, p, true);
      FewerUsers(live, i, p);
    }
    forall p ensures Continues(pt', live', p) { StillInside(pt, pt', live, i, p); }
    forall j | j in live' ensures ChunkOk(pt', live'[j]) {
      assert ChunkOk(pt, live[j]) && Apart(live[i], live[j]);
      if live[j].ref == c.ref { UserCounts(live', c.ref, j); }
      ChunkKept(pt, pt', live[j]);
    }
    assert MptrOk(pt', m, live') by {
      assert c.first <= m.page < c.ref ==> Mapped(pt, m.page, true);
    }
    forall j, k | j in live' && k in live' && j != k ensures Apart(live'[j], live'[k]) {
      assert Apart(live[j], live[k]);
    }
  }

  // ------------------------------------------------------------------
  // malloc()
  // ------------------------------------------------------------------

  lemma GrowsInside(live: Chunks, i: nat, c: Chunk, p: nat)
    requires i !in live && Inside(live, p)
    ensures Inside(live[i := c], p)
  {
    var j :| j in live && live[j].first <= p < live[j].ref;
    assert j in live[i := c];
  }

  lemma FitKeeps(pt: PageTable, m: Place, live: Chunks, lost: set<nat>, i: nat, n: nat)
    requires Inv(pt, m, live, lost) && i !in live && n % 4 == 0 && m.off != 0 && m.off + n <= PGSIZE - 4
    ensures m.page in pt
    ensures Inv(pt[m.page := pt[m.page].(ref := pt[m.page].ref + 1)], Place(m.page, m.off + n),
                live[i := Chunk(Address(m), n, m.page, m.page)], lost)
  {
    var c, m' := Chunk(Address(m), n, m.page, m.page), Place(m.page, m.off + n);
    var pt', live' := pt[m.page := pt[m.page].(ref := pt[m.page].ref + 1)], live[i := c];
    forall p ensures Counted(pt', m', live', lost, p) && Continues(pt', live', p) {
      assert Counted(pt, m, live, lost, p) && Continues(pt, live, p);
      MoreUsers(live, i, c, p);
      if Inside(live, p) { GrowsInside(live, i, c, p); }
    }
    forall j | j in live' ensures ChunkOk(pt', live'[j]) {
      if j != i { ChunkKept(pt, pt', live[j]); }
    }
    forall j | j in live ensures Apart(live[j], c) && Apart(c, live[j]) {
      assert ChunkOk(pt, live[j]);
      assert live[j].first <= m.page < live[j].ref ==> Mapped(pt, m.page, true);
    }
    forall j, k | j in live' && k in live' && j != k ensures Apart(live'[j], live'[k]) {
      if j != i && k != i { assert Apart(live[j], live[k]); }
    }
  }

  // Done with the page: free(mptr).
  lemma LeaveKeeps(pt: PageTable, m: Place, live: Chunks, lost: set<nat>)
    requires Inv(pt, m, live, lost) && m.off != 0
    ensures m.page in pt && pt[m.page].ref > 0 && Inv(Unref(pt, m.page), Place(FIRST, 0), live, lost)
  {
    assert Counted(pt, m, live, lost, m.page);
    var pt', m' := Unref(pt, m.page), Place(FIRST, 0);
    forall p ensures Counted(pt', m', live, lost, p) && Continues(pt', live, p) {
      assert Counted(pt, m, live, lost, p) && Continues(pt, live, p);
    }
    forall j | j in live ensures ChunkOk(pt', live[j]) {
      assert ChunkOk(pt, live[j]);
      assert live[j].first <= m.page < live[j].ref ==> Mapped(pt, m.page, true);
      if live[j].ref == m.page { UserCounts(live, m.page, j); }
      ChunkKept(pt, pt', live[j]);
    }
  }

  // Between pages, malloc() may look anywhere.
  lemma MoveKeeps(pt: PageTable, m: Place, m': Place, live: Chunks, lost: set<nat>)
    requires Inv(pt, m, live, lost) && m.off == 0 && m'.off == 0 && FIRST <= m'.page < END
    ensures Inv(pt, m', live, lost)
  {
    forall p ensures Counted(pt, m', live, lost, p) { assert Counted(pt, m, live, lost, p); }
  }

  // Pages outside the heap do not matter.
  lemma HeapKept(pt: PageTable, pt': PageTable, m: Place, live: Chunks, lost: set<nat>)
    requires Inv(pt, m, live, lost)
    requires forall p :: FIRST <= p < END ==> (p in pt <==> p in pt') && (p in pt ==> pt'[p] == pt[p])
    ensures Inv(pt', m, live, lost)
  {
    forall p ensures Counted(pt', m, live, lost, p) && Continues(pt', live, p) {
      assert Counted(pt, m, live, lost, p) && Continues(pt, live, p);
    }
    forall j | j in live ensures ChunkOk(pt', live[j]) {
      assert ChunkOk(pt, live[j]);
      ChunkKept(pt, pt', live[j]);
    }
  }

  // No page from lo to hi is mapped or past the end.
  predicate Clear(pt: PageTable, lo: nat, hi: nat) {
    hi < END && forall p :: lo <= p <= hi ==> p !in pt
  }

  // Pages lo .. hi have been added to `pt`, all before `last` continued, and counts zero.
  ghost predicate Extends(pt: PageTable, pt': PageTable, lo: nat, hi: nat, last: nat) {
    && (forall p :: p in pt' <==> p in pt || lo <= p < hi)
    && (forall p :: p in pt && !(lo <= p < hi) ==> pt'[p] == pt[p])
    && (forall p :: lo <= p < hi ==> pt'[p] == Page(p < last, 0))
  }

  // A chunk is nowhere in a stretch of pages that are not mapped.
  lemma AwayFrom(pt: PageTable, c: Chunk, lo: nat, hi: nat)
    requires ChunkOk(pt, c) && lo <= hi && Clear(pt, lo, hi)
    ensures c.ref < lo || hi < c.first
  {
    var p := if c.first < lo then lo else c.first;
    assert c.first <= p < c.ref ==> Mapped(pt, p, true);
  }

  // The reference for mptr is lost if the chunk ends where its last page starts.
  function LostWith(lost: set<nat>, c: Chunk): set<nat> {
    if c.v + c.n == c.ref * PGSIZE then lost + {c.ref} else lost
  }

  lemma NewCounted(pt: PageTable, pt1: PageTable, m: Place, m': Place, live: Chunks, lost: set<nat>, i: nat, c: Chunk, p: nat)
    requires Counted(pt, m, live, lost, p) && i !in live && m.off == 0 && FIRST <= c.first <= c.ref < END
    requires c.v + c.n >= c.ref * PGSIZE && m' == Place(c.ref, c.v + c.n - c.ref * PGSIZE) && Clear(pt, c.first, c.ref)
    requires forall j :: j in live ==> live[j].ref < c.first || c.ref < live[j].ref
    requires Extends(pt, pt1, c.first, c.ref + 1, c.ref)
    ensures Counted(pt1[c.ref := Page(false, 2)], m', live[i := c], LostWith(lost, c), p)
  {
    MoreUsers(live, i, c, p);
    if c.first <= p <= c.ref { assert Users(live, p) == {}; }
  }

  lemma NewContinues(pt: PageTable, pt1: PageTable, live: Chunks, i: nat, c: Chunk, p: nat)
    requires Continues(pt, live, p) && i !in live && c.first <= c.ref && Extends(pt, pt1, c.first, c.ref + 1, c.ref)
    ensures Continues(pt1[c.ref := Page(false, 2)], live[i := c], p)
  {
    if c.first <= p < c.ref {
      assert i in live[i := c] && live[i := c][i] == c;
    } else if Inside(live, p) {
      GrowsInside(live, i, c, p);
    }
  }

  lemma NewKeeps(pt: PageTable, pt1: PageTable, m: Place, live: Chunks, lost: set<nat>, i: nat, c: Chunk)
    requires Inv(pt, m, live, lost) && i !in live && m.off == 0
    requires Shaped(c) && c.v == Address(m) && c.n % 4 == 0 && c.first == m.page && Clear(pt, c.first, c.ref)
    requires Extends(pt, pt1, c.first, c.ref + 1, c.ref)
    ensures Inv(pt1[c.ref := Page(false, 2)], Place(c.ref, c.v + c.n - c.ref * PGSIZE), live[i := c], LostWith(lost, c))
  {
    var m' := Place(c.ref, c.v + c.n - c.ref * PGSIZE);
    var pt', live' := pt1[c.ref := Page(false, 2)], live[i := c];
    forall j | j in live ensures live[j].ref < c.first || c.ref < live[j].first {
      AwayFrom(pt, live[j], c.first, c.ref);
    }
    forall j | j in live ensures Shaped(live[j]) { assert ChunkOk(pt, live[j]); }
    forall p: nat ensures Counted(pt', m', live', LostWith(lost, c), p) && Continues(pt', live', p) {
      assert Counted(pt, m, live, lost, p) && Continues(pt, live, p);
      NewCounted(pt, pt1, m, m', live, lost, i, c, p);
      NewContinues(pt, pt1, live, i, c, p);
    }
    forall j | j in live' ensures ChunkOk(pt', live'[j]) {
      if j != i { ChunkKept(pt, pt', live[j]); }
    }
    forall j, k | j in live' && k in live' && j != k ensures Apart(live'[j], live'[k]) {
      if j != i && k != i { assert Apart(live[j], live[k]); }
    }
  }

  // ------------------------------------------------------------------
  // The calls
  // ------------------------------------------------------------------

  // Pages lo .. hi - 1 are unmapped, page hi counts one less or is unmapped too, and
  // nothing else changes.
  ghost predicate Returned(pt: PageTable, pt': PageTable, lo: nat, hi: nat) {
    && (forall p :: lo <= p < hi ==> p !in pt')
    && hi in pt && (if pt[hi].ref == 1 then hi !in pt' else hi in pt' && !pt'[hi].continued && pt'[hi].ref == pt[hi].ref - 1)
    && (forall p :: p < lo || p > hi ==> (p in pt' <==> p in pt) && (p in pt ==> pt'[p] == pt[p]))
  }

  lemma Reusable(pt: PageTable, m: Place, live: Chunks, lost: set<nat>, c: Chunk)
    requires Inv(pt, m, live, lost) && Shaped(c)
    requires forall p :: c.first <= p < c.ref ==> p !in pt
    requires c.ref in pt ==> !pt[c.ref].continued
    ensures Clear(pt, c.first, c.ref) <==> Users(live, c.ref) == {} && Own(m, c.ref) == 0 && c.ref !in lost
    ensures Clear(pt, c.first, c.ref) && c.v % PGSIZE == 0 ==> Room(pt, c.v / PGSIZE, c.n) && !NoRoom(pt, c.n)
  {
    MappedPages(pt, m, live, lost, c.ref);
    forall j | j in live && live[j].first <= c.ref
      ensures c.ref >= live[j].ref
    {
      assert ChunkOk(pt, live[j]) && (c.ref < live[j].ref ==> Mapped(pt, c.ref, true));
    }
    if c.v % PGSIZE == 0 {
      assert c.v == c.first * PGSIZE;
      assert (c.ref - c.first) * PGSIZE <= c.n <= (c.ref - c.first) * PGSIZE + PGSIZE - 4;
      assert (c.n + 3) / PGSIZE == c.ref - c.first;
    }
  }

  // There are pages for `n` bytes and a count at page `k`.
  predicate Room(pt: PageTable, k: nat, n: nat) {
    Clear(pt, k, k + (n + 3) / PGSIZE)
  }

  ghost predicate NoRoom(pt: PageTable, n: nat) {
    forall k :: FIRST <= k < END ==> !Room(pt, k, n)
  }

  // ------------------------------------------------------------------
  // Where the scan goes
  // ------------------------------------------------------------------

  // isfree(q * PGSIZE, n + 4) on 32-bit addresses: a range that wraps around looks empty.
  predicate Yes(pt: PageTable, q: nat, n: nat) {
    q * PGSIZE + n + 4 >= 0x1_0000_0000 || Room(pt, q, n)
  }

  // Page `a` comes before page `q` on the way round from mend.
  predicate Passed(a: nat, q: nat) {
    if q >= END then END <= a < q else END <= a || a < q
  }

  // The first page from mend on, going round, where isfree() says yes.
  ghost predicate FirstYes(pt: PageTable, q: nat, n: nat) {
    q < PAGES && Yes(pt, q, n) && forall a :: 0 <= a < PAGES && Passed(a, q) ==> !Yes(pt, a, n)
  }

  // With the count, more than a page: the first range that wraps around, at the top of the
  // address space.  Otherwise the lowest unmapped page, which may be page 0.
  lemma StrayStop(pt: PageTable, q: nat, n: nat)
    requires FirstYes(pt, q, n) && n < MAXMALLOC
    ensures n + 4 >= PGSIZE ==> q == PAGES - (n + 4) / PGSIZE
    ensures n + 4 < PGSIZE ==> q < END && q !in pt && forall p :: 0 <= p < q ==> p in pt
  {
    if n + 4 >= PGSIZE {
      var w := PAGES - (n + 4) / PGSIZE;
      assert Yes(pt, w, n) && !Passed(w, q);
    } else {
      assert (n + 3) / PGSIZE == 0;
      assert q < END;
      forall p | 0 <= p < q ensures p in pt {
        assert Passed(p, q) && !Yes(pt, p, n);
      }
    }
  }

  lemma PageOf(p: nat, k: nat, r: nat)
    requires r < PGSIZE
    ensures (p * PGSIZE + k * PGSIZE + r) / PGSIZE == p + k && (p * PGSIZE + k * PGSIZE) % PGSIZE == 0
  {
    assert p * PGSIZE + k * PGSIZE + r == (p + k) * PGSIZE + r;
  }

  // Four-byte aligned, what fits before the page ends also leaves the last word.
  lemma FitArithmetic(mptr: nat, n: nat)
    requires mptr % PGSIZE % 4 == 0 && n % 4 == 0 && mptr / PGSIZE == (mptr + n + 3) / PGSIZE
    ensures mptr % PGSIZE + n <= PGSIZE - 4
    ensures mptr % PGSIZE != 0 ==> (mptr + n) / PGSIZE == mptr / PGSIZE && (mptr + n) % PGSIZE == mptr % PGSIZE + n
  {
    var q, r := mptr / PGSIZE, mptr % PGSIZE;
    assert r + n + 3 < PGSIZE;
    assert (r + n) % 4 == 0;
  }

  // A chunk that starts a page ends in the page of its count, before it.
  lemma EndsInRefPage(v: nat, n: nat)
    requires v % PGSIZE == 0 && n % 4 == 0
    ensures var ref := v / PGSIZE + (n + 3) / PGSIZE;
            && ref * PGSIZE <= v + n <= ref * PGSIZE + PGSIZE - 4 && (v + n + 3) / PGSIZE == ref
            && (v + n) / PGSIZE == ref && (v + n) % PGSIZE == v + n - ref * PGSIZE
  {
    var k, r := (n + 3) / PGSIZE, (n + 3) % PGSIZE;
    assert n + 3 == k * PGSIZE + r;
    assert r % 4 == 3;
  }

  // A chunk that starts a page.
  function NewChunk(v: nat, n: nat): Chunk {
    Chunk(v, n, v / PGSIZE, v / PGSIZE + (n + 3) / PGSIZE)
  }

  // A multiple of the page size costs a page that is never unmapped.
  function LostFor(lost: set<nat>, v: nat, n: nat): set<nat> {
    if n % PGSIZE == 0 then lost + {(v + n) / PGSIZE} else lost
  }

  lemma LostWhere(lost: set<nat>, v: nat, n: nat)
    requires v % PGSIZE == 0 && n % 4 == 0
    ensures LostWith(lost, NewChunk(v, n)) == LostFor(lost, v, n)
  {
    EndsInRefPage(v, n);
    assert (v + n) % PGSIZE == n % PGSIZE;
  }

  lemma HandOutKeeps(pt: PageTable, pt1: PageTable, mptr: nat, live: Chunks, lost: set<nat>, i: nat, n: nat, c: Chunk)
    requires Inv(pt, Place(mptr / PGSIZE, mptr % PGSIZE), live, lost) && i !in live
    requires n % 4 == 0 && mptr % PGSIZE == 0
    requires c == NewChunk(mptr, n)
    requires Clear(pt, c.first, c.ref) && Extends(pt, pt1, c.first, c.ref + 1, c.ref)
    ensures (mptr + n + 3) / PGSIZE == c.ref && Mapped(pt1, c.ref, false) && mptr + n > 0
    ensures Inv(pt1[c.ref := Page(false, 2)], PlaceOf(mptr + n), live[i := c], LostFor(lost, mptr, n))
  {
    EndsInRefPage(mptr, n);
    NewKeeps(pt, pt1, Place(mptr / PGSIZE, 0), live, lost, i, c);
    LostWhere(lost, mptr, n);
  }

  // The chunk and its count fit in what is left of the page being filled.
  predicate FitsInPage(mptr: nat, n: nat) {
    mptr % PGSIZE != 0 && mptr / PGSIZE == (mptr + n + 3) / PGSIZE
  }

  // The pages once malloc() has given up the one it was filling.
  function Left(pt: PageTable, mptr: nat): PageTable {
    var p := mptr / PGSIZE;
    if mptr % PGSIZE != 0 && p in pt && pt[p].ref > 0 then Unref(pt, p) else pt
  }

  // So pages given back are there for the next request.
  lemma LeavingKeepsRoom(pt: PageTable, mptr: nat, n: nat)
    requires !NoRoom(pt, n)
    ensures !NoRoom(Left(pt, mptr), n)
  {
    var k :| FIRST <= k < END && Room(pt, k, n);
    assert Room(Left(pt, mptr), k, n);
  }

  // From a page that is the last of the heap, line 74 moves on to mend, which the test at
  // line 88 sees only after a step.
  predicate LeavesHeap(mptr: nat, n: nat) {
    n < MAXMALLOC && mptr % PGSIZE != 0 && !FitsInPage(mptr, n) && mptr / PGSIZE == END - 1
  }

  // No room below the heap, so that the scan comes back to it.
  predicate LowFull(pt: PageTable) {
    forall p :: 0 <= p < FIRST ==> p in pt
  }

  // The scan that follows stops outside the heap and leaves mptr there; only a mptr of 0
  // sets things right, because the next call starts afresh.
  ghost predicate StraysFor(pt: PageTable, mptr: nat, n: nat, avail: nat) {
    && LeavesHeap(mptr, n)
    && (n + 4 >= PGSIZE || !LowFull(pt))
    && !(n + 4 < PGSIZE && 0 !in pt && (n == 0 || avail == 0))
  }

  // An allocator in good order that is about to: one reference on the last page.
  lemma LastPageHappens()
    ensures Inv(map[END - 1 := Page(false, 1)], Place(END - 1, 8), map[], {})
    ensures StraysFor(map[END - 1 := Page(false, 1)], MEND - PGSIZE + 8, 4088, 1)
  {
    var pt: PageTable, live: Chunks, m := map[END - 1 := Page(false, 1)], map[], Place(END - 1, 8);
    forall p ensures Counted(pt, m, live, {}, p) {
      assert Users(live, p) == {};
    }
    assert 0 !in pt;
  }

  // A page below the heap.
  lemma LowKeeps(pt: PageTable, pt1: PageTable, c: Chunk, live: Chunks, lost: set<nat>)
    requires Inv(pt, Place(FIRST, 0), live, lost) && c.v < MBEGIN && c.n + 4 < PGSIZE && c.first == c.v / PGSIZE
    requires c.ref == c.first + (c.n + 3) / PGSIZE && Extends(pt, pt1, c.first, c.ref + 1, c.ref)
    ensures Inv(pt1[c.ref := Page(false, 2)], Place(FIRST, 0), live, lost)
  {
    assert (c.n + 3) / PGSIZE == 0 && c.first < FIRST;
    HeapKept(pt, pt1[c.ref := Page(false, 2)], Place(FIRST, 0), live, lost);
  }

  // In the heap no range wraps around.
  lemma InHeapNoWrap(pt: PageTable, q: nat, n: nat)
    requires n < MAXMALLOC
    ensures q < END ==> (Yes(pt, q, n) <==> Room(pt, q, n))
  {
  }

  lemma AllRound(pt: PageTable, n: nat)
    requires n < MAXMALLOC && !Yes(pt, END - 1, n)
    requires forall a :: 0 <= a < PAGES && Passed(a, END - 1) ==> !Yes(pt, a, n)
    ensures NoRoom(pt, n) && forall a :: 0 <= a < PAGES ==> !Yes(pt, a, n)
  {
    forall a | 0 <= a < PAGES ensures !Yes(pt, a, n) {
      assert a == END - 1 || Passed(a, END - 1);
    }
    forall k | FIRST <= k < END ensures !Room(pt, k, n) {
      InHeapNoWrap(pt, k, n);
      assert !Yes(pt, k, n);
    }
  }

  lemma NoneAnywhere(pt: PageTable, n: nat)
    requires n < MAXMALLOC && forall a :: 0 <= a < PAGES ==> !Yes(pt, a, n)
    ensures n + 4 < PGSIZE && forall p :: 0 <= p < FIRST ==> p in pt
  {
    var w := PAGES - (n + 4) / PGSIZE;
    assert n + 4 >= PGSIZE ==> Yes(pt, w, n);
    assert (n + 3) / PGSIZE == 0;
    forall p | 0 <= p < FIRST ensures p in pt { assert !Yes(pt, p, n); }
  }

  lemma NextPageNumber(q: nat, mptr: nat)
    requires q < PAGES && mptr == (q * PGSIZE + PGSIZE) % 0x1_0000_0000
    ensures mptr % PGSIZE == 0 && mptr / PGSIZE == if q + 1 == PAGES then 0 else q + 1
    ensures mptr == if q + 1 == PAGES then 0 else q * PGSIZE + PGSIZE
  {
  }

  class Allocator {
    var pt: PageTable
    var mptr: nat
    ghost var live: Chunks
    ghost var next: nat              // the number of the next chunk
    ghost var lost: set<nat>         // pages with a reference nobody will drop

    ghost function Mptr(): Place
      reads this
    {
      PlaceOf(mptr)
    }

    ghost predicate Valid()
      reads this
    {
      Inv(pt, Mptr(), live, lost) && (forall i :: i in live ==> i < next)
    }

    // Valid() but for where mptr is, between pages.
    ghost predicate Rests()
      reads this
    {
      Inv(pt, Place(FIRST, 0), live, lost) && (forall i :: i in live ==> i < next)
    }

    constructor ()
      ensures Valid() && live == map[] && lost == {}
    {
      pt, mptr, live, next, lost := map[], 0, map[], 0, {};
      new;
      assert forall p :: Users(live, p) == {};
    }

    // As some calls have left it.
    constructor After(pt: PageTable, mptr: nat, ghost live: Chunks, ghost next: nat, ghost lost: set<nat>)
      requires mptr != 0 && Inv(pt, Place(mptr / PGSIZE, mptr % PGSIZE), live, lost) && forall i :: i in live ==> i < next
      ensures Valid() && this.pt == pt && this.mptr == mptr && this.live == live
    {
      this.pt, this.mptr, this.live, this.next, this.lost := pt, mptr, live, next, lost;
    }

    method IsFree(v: nat, n: nat) returns (b: bool)
      requires v % PGSIZE == 0 && 4 <= n < 0x8000_0000 && v < 0x1_0000_0000
      ensures b <==> Yes(pt, v / PGSIZE, n - 4)
    {
      var first, last := v / PGSIZE, v / PGSIZE + (n - 1) / PGSIZE;
      var va, endVa := v, (v + n) % 0x1_0000_0000;
      if v + n >= 0x1_0000_0000 { assert endVa == v + n - 0x1_0000_0000 <= va; } else { assert endVa == v + n; }
      ghost var k := 0;
      while va < endVa
        invariant va == first * PGSIZE + k * PGSIZE && (v + n < 0x1_0000_0000 ==> first + k <= last + 1)
        invariant v + n >= 0x1_0000_0000 ==> va == v
        invariant forall p :: first <= p < first + k ==> p < END && p !in pt
        decreases endVa - va
      {
        PageOf(first, k, 0);
        assert va / PGSIZE == first + k <= last;
        if va >= MEND || va / PGSIZE in pt {
          return false;
        }
        va := (va + PGSIZE) % 0x1_0000_0000;
        k := k + 1;
      }
      if v + n < 0x1_0000_0000 {
        assert first + k == last + 1;
        assert last !in pt;
      }
      return true;
    }

    // The body of free() for memory whose count is in page `ref`.
    method Release(v: nat, ghost ref: nat)
      requires FIRST <= v / PGSIZE <= ref < END
      requires forall p :: v / PGSIZE <= p < ref ==> Mapped(pt, p, true)
      requires Mapped(pt, ref, false) && pt[ref].ref > 0
      modifies this`pt
      ensures pt == Unref(Without(old(pt), v / PGSIZE, ref), ref)
    {
      var c := v / PGSIZE;
      assert c < ref ==> Mapped(pt, c, true);
      while pt[c].continued
        invariant v / PGSIZE <= c <= ref && pt == Without(old(pt), v / PGSIZE, c) && c in pt
        decreases ref - c
      {
        assert c != ref;
        pt := pt - {c};
        c := c + 1;
        assert c < ref ==> Mapped(old(pt), c, true);
      }
      assert c < ref ==> Mapped(old(pt), c, true);
      if pt[c].ref == 1 {
        pt := pt - {c};
      } else {
        pt := pt[c := pt[c].(ref := pt[c].ref - 1)];
      }
    }

    // `i` is the chunk that `v` stands for.
    method Free(v: nat, ghost i: nat)
      requires Valid() && (v != 0 ==> i in live && live[i].v == v)
      modifies this`pt, this`live
      ensures Valid() && live == if v == 0 then old(live) else old(live) - {i}
      ensures v == 0 ==> pt == old(pt)
      ensures v != 0 ==>
                var c := old(live)[i];
                && Returned(old(pt), pt, c.first, c.ref)
                // all its pages are unmapped with the last chunk on them, unless malloc() holds on
                && (Clear(pt, c.first, c.ref) <==> Users(live, c.ref) == {} && Own(Mptr(), c.ref) == 0 && c.ref !in lost)
                // ... and then the same request finds room there
                && (Clear(pt, c.first, c.ref) && v % PGSIZE == 0 ==> Room(pt, v / PGSIZE, c.n) && !NoRoom(pt, c.n))
    {
      if v == 0 {
        return;
      }
      ghost var c := live[i];
      assert ChunkOk(pt, c);
      FreeKeeps(pt, Mptr(), live, lost, i);
      Release(v, c.ref);
      live := live - {i};
      Reusable(pt, Mptr(), live, lost, c);
    }

    // The loop at line 84: the next address that isfree() accepts.
    method Scan(n: nat) returns (found: bool)
      requires mptr % PGSIZE == 0 && MBEGIN <= mptr <= MEND && n < MAXMALLOC
      modifies this`mptr
      ensures mptr % PGSIZE == 0 && mptr < 0x1_0000_0000
      ensures !found ==> MBEGIN <= mptr < MEND && NoRoom(pt, n)
      ensures found && MBEGIN <= mptr < MEND ==> Room(pt, mptr / PGSIZE, n)
      // from inside the heap it stays there, from mend it takes the first address going round
      ensures MBEGIN <= old(mptr) < MEND ==> MBEGIN <= mptr < MEND
      ensures found && old(mptr) == MEND ==> FirstYes(pt, mptr / PGSIZE, n)
      ensures !found && old(mptr) == MEND ==> forall a :: 0 <= a < PAGES ==> !Yes(pt, a, n)
    {
      var nwrap := 0;
      while true
        invariant mptr % PGSIZE == 0 && mptr < 0x1_0000_0000 && 0 <= nwrap <= 1
        invariant old(mptr) < MEND || nwrap == 1 ==> MBEGIN <= mptr < MEND
        invariant nwrap == 1 ==> forall k :: FIRST <= k < mptr / PGSIZE ==> !Room(pt, k, n)
        invariant old(mptr) == MEND && nwrap == 1 ==> NoRoom(pt, n) && forall a :: 0 <= a < PAGES ==> !Yes(pt, a, n)
        invariant old(mptr) == MEND && nwrap == 0 ==>
                    forall a :: 0 <= a < PAGES && Passed(a, mptr / PGSIZE) ==> !Yes(pt, a, n)
        decreases 2 - nwrap, if mptr >= MEND then 0x1_0000_0000 + MEND - mptr else MEND - mptr
      {
        var free := IsFree(mptr, n + 4);
        InHeapNoWrap(pt, mptr / PGSIZE, n);
        if free {
          return true;
        }
        assert !Yes(pt, mptr / PGSIZE, n);
        ghost var q := mptr / PGSIZE;
        mptr := (mptr + PGSIZE) % 0x1_0000_0000;
        NextPageNumber(q, mptr);
        if mptr == MEND {
          if old(mptr) == MEND && nwrap == 0 { AllRound(pt, n); }
          mptr := MBEGIN;
          nwrap := nwrap + 1;
          if nwrap == 2 {
            return false;
          }
        }
      }
    }

    // The loop at line 98, over pages first .. last; sys_page_alloc() succeeds `avail` times,
    // and never from UTOP on.
    method Populate(n: nat, avail: nat, ghost first: nat, ghost last: nat) returns (ok: bool)
      requires mptr == first * PGSIZE < 0x1_0000_0000
      requires mptr < UTOP ==> last * PGSIZE < UTOP && forall p :: first <= p <= last ==> p !in pt
      requires first <= last && (last - first) * PGSIZE <= n + 3 < (last - first + 1) * PGSIZE
      modifies this`pt
      ensures ok <==> mptr < UTOP && last - first < avail
      ensures ok ==> Extends(old(pt), pt, first, last + 1, last)
      ensures !ok ==> pt == old(pt)
    {
      ghost var pt0, hi := pt, first;
      var i, left := 0, avail;
      while i < n + 4
        invariant first <= hi <= last + 1 && i == (hi - first) * PGSIZE && hi - first == avail - left && left >= 0
        invariant mptr >= UTOP ==> i == 0
        invariant Extends(pt0, pt, first, hi, last) && (i == 0 ==> pt == pt0)
      {
        var va := (mptr + i) % 0x1_0000_0000;
        if left == 0 || va >= UTOP {
          Unwind(i, pt0, first, hi, last);
          return false;
        }
        MapPage(va, Page(i + PGSIZE < n + 4, 0), pt0, first, hi, last);
        i, left := i + PGSIZE, left - 1;
        hi := hi + 1;
      }
      return true;
    }

    // sys_page_alloc()
    method MapPage(va: nat, page: Page, ghost pt0: PageTable, ghost first: nat, ghost hi: nat, ghost last: nat)
      requires Extends(pt0, pt, first, hi, last) && first <= hi && va == hi * PGSIZE && page == Page(hi < last, 0)
      modifies this`pt
      ensures Extends(pt0, pt, first, hi + 1, last)
    {
      assert va / PGSIZE == hi;
      pt := pt[va / PGSIZE := page];
    }

    // The loop at line 101: pages i, i - PGSIZE, ... are unmapped again.
    method Unwind(i: nat, ghost pt0: PageTable, ghost first: nat, ghost hi: nat, ghost last: nat)
      requires mptr == first * PGSIZE < 0x1_0000_0000 && first <= hi <= last && i == (hi - first) * PGSIZE
      requires mptr >= UTOP ==> i == 0 && pt == pt0
      requires mptr < UTOP ==> last * PGSIZE < UTOP && forall p :: first <= p <= last ==> p !in pt0
      requires Extends(pt0, pt, first, hi, last)
      modifies this`pt
      ensures pt == pt0
    {
      ghost var k := hi;
      var j := i;
      while j >= 0
        invariant j == (k - first) * PGSIZE && first - 1 <= k <= hi
        invariant mptr >= UTOP ==> pt == pt0 && j <= 0
        invariant mptr < UTOP ==> forall p :: p in pt <==> p in pt0 || (first <= p <= k && p < hi)
        invariant forall p :: p in pt0 && (mptr < UTOP || p in pt) ==> p in pt && pt[p] == pt0[p]
      {
        assert (mptr + j) / PGSIZE == k;
        var va := mptr + j;
        if va < UTOP {
          pt := pt - {va / PGSIZE};
        }
        j := j - PGSIZE;
        k := k - 1;
      }
    }

    // `n` is what the caller asks for, a 32-bit number.  A result of 0 is a failure: the
    // request is too large, or there is no address space, or not enough memory.
    method Malloc(n: nat, avail: nat) returns (v: nat, ghost i: nat)
      requires Valid() && n < 0x1_0000_0000
      modifies this
      // the allocator stays in order if and only if the scan does not end up outside
      ensures Valid() <==> !StraysFor(old(pt), old(mptr), Rounded(n), avail)
      ensures forall j :: j in old(live) ==> j in live && live[j] == old(live)[j]
      ensures !LeavesHeap(old(mptr), Rounded(n)) || (Rounded(n) + 4 < PGSIZE && LowFull(old(pt))) ==>
                && (v == 0 <==> || Rounded(n) >= MAXMALLOC
                                || (!FitsInPage(old(mptr), Rounded(n))
                                    && (NoRoom(Left(old(pt), old(mptr)), Rounded(n)) || avail <= (Rounded(n) + 3) / PGSIZE)))
                && (v == 0 ==> live == old(live) && lost == old(lost))
                && (v != 0 ==> lost == if FitsInPage(old(mptr), Rounded(n)) then old(lost) else LostFor(old(lost), v, Rounded(n)))
                && (v != 0 ==> i !in old(live) && live.Keys == old(live).Keys + {i} && live[i].v == v && live[i].n == Rounded(n))
      // outside, it answers 0 from page 0, which is mapped now, or from where nothing can be
      ensures StraysFor(old(pt), old(mptr), Rounded(n), avail) ==> live == old(live)
      ensures StraysFor(old(pt), old(mptr), Rounded(n), avail) && Rounded(n) + 4 < PGSIZE && 0 !in old(pt) ==>
                v == 0 && mptr == Rounded(n) && 0 in pt
      ensures StraysFor(old(pt), old(mptr), Rounded(n), avail) && Rounded(n) + 4 >= PGSIZE ==>
                v == 0 && mptr == (PAGES - (Rounded(n) + 4) / PGSIZE) * PGSIZE
    {
      i := next;
      if mptr == 0 {
        mptr := MBEGIN;
      }
      var size := Rounded(n);
      RoundedCovers(n);
      if size >= MAXMALLOC {
        return 0, i;
      }
      if mptr % PGSIZE != 0 {
        if mptr / PGSIZE == (mptr + size - 1 + 4) / PGSIZE {
          v := FillPage(size);
          return;
        }
        LeavePage();
        assert forall p :: 0 <= p < FIRST ==> (p in pt <==> p in old(pt));
      } else {
        MoveKeeps(pt, Mptr(), Place(FIRST, 0), live, lost);
      }
      v := Find(size, avail);
    }

    method FillPage(n: nat) returns (v: nat)
      requires Valid() && mptr != 0 && n % 4 == 0 && FitsInPage(mptr, n)
      modifies this
      ensures Valid() && v == old(mptr) && next == old(next) + 1 && lost == old(lost)
      ensures live == old(live)[old(next) := Chunk(v, n, v / PGSIZE, v / PGSIZE)]
    {
      ghost var m := Mptr();
      FitArithmetic(mptr, n);
      FitKeeps(pt, m, live, lost, next, n);
      var p := mptr / PGSIZE;
      pt := pt[p := pt[p].(ref := pt[p].ref + 1)];
      v := mptr;
      mptr := mptr + n;
      live, next := live[next := Chunk(v, n, m.page, m.page)], next + 1;
    }

    // Lines 73 and 74.
    method LeavePage()
      requires Valid() && mptr % PGSIZE != 0
      modifies this`pt, this`mptr
      ensures Rests() && pt == Left(old(pt), old(mptr))
      ensures mptr == (old(mptr) / PGSIZE + 1) * PGSIZE && MBEGIN <= mptr <= MEND
    {
      ghost var page := mptr / PGSIZE;
      LeaveKeeps(pt, Mptr(), live, lost);
      assert Counted(pt, Mptr(), live, lost, page);
      Release(mptr, page);
      assert Without(old(pt), page, page) == old(pt);
      mptr := (mptr + PGSIZE) / PGSIZE * PGSIZE;
    }

    // Lines 83 to 111, from inside the heap or from mend.
    method Find(n: nat, avail: nat) returns (v: nat)
      requires Rests() && mptr % PGSIZE == 0 && MBEGIN <= mptr <= MEND && n % 4 == 0 && n < MAXMALLOC
      modifies this
      ensures old(mptr) < MEND || (n + 4 < PGSIZE && LowFull(old(pt))) ==>
                && Valid() && (v == 0 <==> NoRoom(old(pt), n) || avail <= (n + 3) / PGSIZE)
                && (v != 0 ==> next != old(next))
      ensures v == 0 || next == old(next) ==> live == old(live)
      ensures lost == if next != old(next) then LostFor(old(lost), v, n) else old(lost)
      ensures next != old(next) ==> v != 0 && next == old(next) + 1
                                    && live == old(live)[old(next) := NewChunk(v, n)]
      ensures old(mptr) == MEND && n + 4 >= PGSIZE ==>
                !Valid() && next == old(next) && v == 0 && mptr == (PAGES - (n + 4) / PGSIZE) * PGSIZE
      ensures old(mptr) == MEND && n + 4 < PGSIZE && !LowFull(old(pt)) ==>
                && next == old(next) && (Valid() <==> 0 !in old(pt) && (n == 0 || avail == 0))
                && (0 !in old(pt) && avail > 0 ==> v == 0 && mptr == n && 0 in pt)
    {
      var found := Scan(n);
      if !found {
        MoveKeeps(pt, Place(FIRST, 0), Mptr(), live, lost);
        if old(mptr) == MEND { NoneAnywhere(pt, n); }
        return 0;
      }
      if old(mptr) == MEND { StrayStop(pt, mptr / PGSIZE, n); }
      v := NewPages(n, avail);
    }

    method NewPages(n: nat, avail: nat) returns (v: nat)
      requires Rests() && mptr % PGSIZE == 0 && mptr < 0x1_0000_0000 && n % 4 == 0 && n < MAXMALLOC
      requires || (MBEGIN <= mptr < MEND && Room(pt, mptr / PGSIZE, n))
               || (mptr < MBEGIN && n + 4 < PGSIZE && mptr / PGSIZE !in pt)
               || mptr >= UTOP
      modifies this
      ensures MBEGIN <= old(mptr) < MEND ==> Valid() && (v != 0 <==> (n + 3) / PGSIZE < avail) && (v != 0 <==> next != old(next))
      ensures next == old(next) ==> live == old(live)
      ensures lost == if next != old(next) then LostFor(old(lost), v, n) else old(lost)
      ensures next != old(next) ==> && v == old(mptr) && next == old(next) + 1
                                    && live == old(live)[old(next) := NewChunk(v, n)]
      ensures old(mptr) < MBEGIN ==> && Rests() && next == old(next) && v == (if avail > 0 then old(mptr) else 0)
                                     && mptr == old(mptr) + (if avail > 0 then n else 0)
                                     && (avail > 0 ==> old(mptr) / PGSIZE in pt)
      ensures old(mptr) >= UTOP ==> v == 0 && mptr == old(mptr) && next == old(next)
    {
      ghost var pt0, first := pt, mptr / PGSIZE;
      ghost var last := first + (n + 3) / PGSIZE;
      var ok := Populate(n, avail, first, last);
      if !ok {
        if MBEGIN <= mptr < MEND { MoveKeeps(pt, Place(FIRST, 0), Mptr(), live, lost); }
        return 0;
      }
      v := HandOut(n, pt0);
    }

    // Lines 107 to 111.
    method HandOut(n: nat, ghost pt0: PageTable) returns (v: nat)
      requires Inv(pt0, Place(FIRST, 0), live, lost) && (forall i :: i in live ==> i < next)
      requires n % 4 == 0 && mptr % PGSIZE == 0
      requires (MBEGIN <= mptr < MEND && Room(pt0, mptr / PGSIZE, n)) || (mptr < MBEGIN && n + 4 < PGSIZE)
      requires var first, last := mptr / PGSIZE, mptr / PGSIZE + (n + 3) / PGSIZE; Extends(pt0, pt, first, last + 1, last)
      modifies this
      ensures v == old(mptr) && mptr == old(mptr) + n
      ensures lost == if MBEGIN <= old(mptr) then LostFor(old(lost), v, n) else old(lost)
      ensures MBEGIN <= old(mptr) ==>
                && Valid() && next == old(next) + 1
                && live == old(live)[old(next) := NewChunk(v, n)]
      ensures old(mptr) < MBEGIN ==> Rests() && next == old(next) && live == old(live) && old(mptr) / PGSIZE in pt
    {
      ghost var c := NewChunk(mptr, n);
      if mptr >= MBEGIN {
        MoveKeeps(pt0, Place(FIRST, 0), Place(mptr / PGSIZE, 0), live, lost);
        HandOutKeeps(pt0, pt, mptr, live, lost, next, n, c);
      } else {
        LowKeeps(pt0, pt, c, live, lost);
      }
      v := Count(n, c);
      if v >= MBEGIN {
        live, next, lost := live[next := c], next + 1, LostFor(lost, v, n);
      }
    }

    // *ref = 2
    method Count(n: nat, ghost c: Chunk) returns (v: nat)
      requires n % 4 == 0 && mptr % PGSIZE == 0 && c == NewChunk(mptr, n) && Mapped(pt, c.ref, false)
      modifies this`pt, this`mptr
      ensures v == old(mptr) && mptr == old(mptr) + n && pt == old(pt)[c.ref := Page(false, 2)]
    {
      EndsInRefPage(mptr, n);
      var last := (mptr + n + 3) / PGSIZE;
      pt := pt[last := pt[last].(ref := 2)];
      v := mptr;
      mptr := mptr + n;
    }
  }

  // From there, a small request answers 0 and leaves the allocator in disorder.
  method GoesAstray() returns (a: Allocator, v: nat)
    ensures v == 0 && a.mptr == 4088 && !a.Valid()
  {
    LastPageHappens();
    a := new Allocator.After(map[END - 1 := Page(false, 1)], MEND - PGSIZE + 8, map[], 0, {});
    ghost var i;
    v, i := a.Malloc(4088, 1);
  }
}
