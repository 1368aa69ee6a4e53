/**
 Copy-on-write fork in user space (lab/lib/fork.c) against eager copying
 (lab/user/dumbfork.c).

 Environments run interleaved, one system call or memory access at a time.  A page is
 named by its environment and page number.  `pt` holds the mappings of the pages that
 fork copies, `temp` the mapping of each environment at PFTEMP.
 */
module CopyOnWrite {
  import opened Options

  const PGSIZE := 4096
  const NPTENTRIES := 1024
  const PN_LO := 0x800         // PGNUM(UTEXT)
  const PN_HI := 0xEEBFF       // PGNUM(UXSTACKTOP - PGSIZE): the exception stack is not copied

  const PTE_P: bv12 := 0x001
  const PTE_W: bv12 := 0x002
  const PTE_U: bv12 := 0x004
  const PTE_SHARE: bv12 := 0x400
  const PTE_COW: bv12 := 0x800
  const PTE_SYSCALL: bv12 := 0xE07

  type Page = seq<int>
  datatype Loc = Loc(e: nat, pn: nat)
  datatype Pte = Pte(frame: nat, flags: bv12)

  predicate Writable(p: Pte) { p.flags & PTE_W != 0 }
  predicate Accessible(p: Pte) { p.flags & PTE_P != 0 && p.flags & PTE_U != 0 }
  predicate IsCow(p: Pte) { p.flags & PTE_COW != 0 }
  predicate IsShare(p: Pte) { p.flags & PTE_SHARE != 0 }

  // ------------------------------------------------------------------
  // The eager machine: every environment has its own copy
  // ------------------------------------------------------------------

  // A page of its own, or one that stays common to all environments it is mapped in.
  datatype Cell = Own(content: Page, writable: bool) | Common(id: nat, writable: bool)

  datatype Eager = Eager(cells: map<Loc, Cell>, pool: map<nat, Page>)

  function Contents(t: Eager, a: Loc): Page
    requires a in t.cells && (t.cells[a].Common? ==> t.cells[a].id in t.pool)
  {
    if t.cells[a].Own? then t.cells[a].content else t.pool[t.cells[a].id]
  }

  function EagerCopy(t: Eager, p: nat, c: nat, pn: nat): Eager {
    if Loc(p, pn) in t.cells then t.(cells := t.cells[Loc(c, pn) := t.cells[Loc(p, pn)]]) else t
  }

  function EagerWrite(t: Eager, a: Loc, off: nat, v: int): Eager {
    if a !in t.cells then t
    else match t.cells[a]
      case Own(content, w) =>
        if off < |content| then t.(cells := t.cells[a := Own(content[off := v], w)]) else t
      case Common(id, _) =>
        if id in t.pool && off < |t.pool[id]| then t.(pool := t.pool[id := t.pool[id][off := v]]) else t
  }

  // ------------------------------------------------------------------
  // The copy-on-write machine
  // ------------------------------------------------------------------

  // pgfault() in progress at page `pn`; the stages are its system calls.
  datatype Stage = Allocated | Copied | Unmapped | Remapped
  datatype Fault = Fault(pn: nat, stage: Stage)

  // duppage() between its two calls of sys_page_map.
  datatype Dup = Dup(child: nat, pn: nat)

  datatype State = State(
    pt: map<Loc, Pte>,
    temp: map<nat, nat>,          // frame mapped at PFTEMP
    data: seq<Page>,              // physical memory
    fault: map<nat, Fault>,
    dup: map<nat, Dup>,
    parent: map<nat, nat>         // children not yet started, and who is forking them
  )

  function Data(s: State, f: nat): Page {
    if f < |s.data| then s.data[f] else []
  }

  function Put(s: State, f: nat, page: Page): State {
    if f < |s.data| then s.(data := s.data[f := page]) else s
  }

  // An environment that can execute ordinary code.
  predicate Active(s: State, e: nat) {
    e !in s.parent && e !in s.fault
  }

  // `c` already has the page, but the parent can still write to it.
  ghost predicate Half(s: State, a: Loc) {
    && a.e in s.parent
    && var p := s.parent[a.e];
    && p in s.dup && s.dup[p] == Dup(a.e, a.pn)
    && Loc(p, a.pn) in s.pt && a in s.pt
    && Writable(s.pt[Loc(p, a.pn)]) && s.pt[Loc(p, a.pn)].frame == s.pt[a].frame
  }

  // The page is between being unmapped and mapped again by pgfault().
  ghost predicate Moving(s: State, a: Loc) {
    a.e in s.fault && s.fault[a.e] == Fault(a.pn, Unmapped)
  }

  predicate Maps(pt: map<Loc, Pte>, a: Loc, f: nat) { a in pt && pt[a].frame == f }

  ghost predicate Mapped(pt: map<Loc, Pte>, temp: map<nat, nat>, f: nat) {
    (exists a :: Maps(pt, a, f)) || (exists e :: e in temp && temp[e] == f)
  }

  // ------------------------------------------------------------------
  // The invariant
  // ------------------------------------------------------------------

  ghost predicate EntryOk(s: State, a: Loc) {
    a in s.pt ==>
      && s.pt[a].frame < |s.data| && Accessible(s.pt[a])
      && !(IsCow(s.pt[a]) && (Writable(s.pt[a]) || IsShare(s.pt[a])))
      && (a.e in s.parent && Writable(s.pt[a]) ==> IsShare(s.pt[a]) || a.pn == PN_HI)
  }

  // Two mappings of one frame are both shared, or both private and not writable; the
  // one exception is a page whose duplication is half done.
  ghost predicate Apart(s: State, a: Loc, b: Loc) {
    a in s.pt && b in s.pt && a != b && s.pt[a].frame == s.pt[b].frame ==>
      && (IsShare(s.pt[a]) <==> IsShare(s.pt[b]))
      && (Writable(s.pt[a]) ==> IsShare(s.pt[a]) || Half(s, b))
  }

  ghost predicate DupOk(s: State, p: nat) {
    p in s.dup ==>
      var a, b := Loc(p, s.dup[p].pn), Loc(s.dup[p].child, s.dup[p].pn);
      && p !in s.parent && b.e in s.parent && s.parent[b.e] == p && a.pn != PN_HI
      && (a in s.pt || Moving(s, a)) && b in s.pt
      && (a in s.pt ==> !IsShare(s.pt[a]) && (Writable(s.pt[a]) || IsCow(s.pt[a]))) && IsCow(s.pt[b])
  }

  // A frame at PFTEMP is nowhere else, until pgfault() maps it at the faulting page.
  ghost predicate TempApart(s: State, e: nat, a: Loc) {
    e in s.temp && a in s.pt && s.pt[a].frame == s.temp[e] ==>
      e in s.fault && s.fault[e] == Fault(a.pn, Remapped) && a.e == e
  }

  ghost predicate TempsApart(s: State, d: nat, e: nat) {
    d in s.temp && e in s.temp && d != e ==> s.temp[d] != s.temp[e]
  }

  ghost predicate FaultOk(s: State, e: nat) {
    && (e in s.temp <==> e in s.fault)
    && (e in s.fault ==>
          var a := Loc(e, s.fault[e].pn);
          && e !in s.parent && s.temp[e] < |s.data|
          && match s.fault[e].stage
             case Allocated => a in s.pt && IsCow(s.pt[a])
             case Copied => a in s.pt && IsCow(s.pt[a]) && Data(s, s.temp[e]) == Data(s, s.pt[a].frame)
             case Unmapped => a !in s.pt
             case Remapped => a in s.pt && s.pt[a] == OwnPte(s.temp[e]))
  }

  ghost predicate Inv(s: State) {
    && (forall f :: 0 <= f < |s.data| ==> |s.data[f]| == PGSIZE)
    && (forall a {:trigger EntryOk(s, a)} :: EntryOk(s, a))
    && (forall a, b {:trigger Apart(s, a, b)} :: Apart(s, a, b))
    && (forall p {:trigger DupOk(s, p)} :: DupOk(s, p))
    && (forall e, a {:trigger TempApart(s, e, a)} :: TempApart(s, e, a))
    && (forall d, e {:trigger TempsApart(s, d, e)} :: TempsApart(s, d, e))
    && (forall e {:trigger FaultOk(s, e)} :: FaultOk(s, e))
  }

  // ------------------------------------------------------------------
  // Steps
  // ------------------------------------------------------------------

  // PTE_P | PTE_W | PTE_U
  function OwnPte(f: nat): (p: Pte)
    ensures Accessible(p) && Writable(p) && !IsCow(p) && !IsShare(p) && p.frame == f
  {
    Pte(f, PTE_P | PTE_W | PTE_U)
  }

  // PTE_P | PTE_U | PTE_COW
  function CowPte(f: nat): (p: Pte)
    ensures Accessible(p) && !Writable(p) && IsCow(p) && !IsShare(p) && p.frame == f
  {
    Pte(f, PTE_P | PTE_U | PTE_COW)
  }

  // What duppage() maps in the child.
  function ChildPte(p: Pte): (q: Pte)
    ensures q.frame == p.frame && (IsShare(q) <==> IsShare(p)) && (Accessible(p) ==> Accessible(q))
    ensures IsShare(p) ==> (Writable(q) <==> Writable(p)) && (IsCow(q) <==> IsCow(p))
    ensures !IsShare(p) ==> !Writable(q) && (IsCow(q) <==> Writable(p) || IsCow(p))
  {
    if IsShare(p) then Pte(p.frame, p.flags & PTE_SYSCALL)
    else if Writable(p) || IsCow(p) then CowPte(p.frame)
    else Pte(p.frame, PTE_P | PTE_U)
  }

  function SetPte(s: State, a: Loc, p: Pte): State { s.(pt := s.pt[a := p]) }

  function SetFault(s: State, e: nat, pn: nat, stage: Stage): State {
    s.(fault := s.fault[e := Fault(pn, stage)])
  }

  // A store.
  predicate CanWrite(s: State, a: Loc, off: nat) {
    Active(s, a.e) && a in s.pt && Accessible(s.pt[a]) && Writable(s.pt[a]) && off < |Data(s, s.pt[a].frame)|
  }

  function Write(s: State, a: Loc, off: nat, v: int): State
    requires CanWrite(s, a, off)
  {
    Put(s, s.pt[a].frame, Data(s, s.pt[a].frame)[off := v])
  }

  // pgfault(): sys_page_alloc(PFTEMP)
  ghost predicate CanFaultAlloc(s: State, a: Loc, nf: nat) {
    Active(s, a.e) && a in s.pt && IsCow(s.pt[a]) && nf < |s.data| && !Mapped(s.pt, s.temp, nf)
  }

  function FaultAlloc(s: State, a: Loc, nf: nat): State {
    SetFault(Put(s, nf, ZeroPage()).(temp := s.temp[a.e := nf]), a.e, a.pn, Allocated)
  }

  predicate InFault(s: State, e: nat, stage: Stage) {
    e in s.fault && e in s.temp && s.fault[e].stage == stage
  }

  // memmove(PFTEMP, addr, PGSIZE)
  function FaultCopy(s: State, e: nat): State
    requires InFault(s, e, Allocated)
  {
    var a := Loc(e, s.fault[e].pn);
    SetFault(if a in s.pt then Put(s, s.temp[e], Data(s, s.pt[a].frame)) else s, e, a.pn, Copied)
  }

  // sys_page_unmap(addr)
  function FaultUnmap(s: State, e: nat): State
    requires InFault(s, e, Copied)
  {
    SetFault(s.(pt := s.pt - {Loc(e, s.fault[e].pn)}), e, s.fault[e].pn, Unmapped)
  }

  // sys_page_map(PFTEMP, addr)
  function FaultMap(s: State, e: nat): State
    requires InFault(s, e, Unmapped)
  {
    SetFault(SetPte(s, Loc(e, s.fault[e].pn), OwnPte(s.temp[e])), e, s.fault[e].pn, Remapped)
  }

  // sys_page_unmap(PFTEMP)
  function FaultDone(s: State, e: nat): State {
    s.(temp := s.temp - {e}, fault := s.fault - {e})
  }

  // fork(): sys_exofork.
  ghost predicate CanForkStart(s: State, p: nat, c: nat) {
    && Active(s, p) && p != c
    && (forall a :: a in s.pt ==> a.e != c)
    && c !in s.temp && c !in s.fault && c !in s.dup && c !in s.parent
    && (forall d :: d in s.parent ==> s.parent[d] != c)
  }

  function ForkStart(s: State, p: nat, c: nat): State { s.(parent := s.parent[c := p]) }

  // duppage(): the mapping in the child.
  predicate CanMapChild(s: State, p: nat, c: nat, pn: nat) {
    && Active(s, p) && p !in s.dup && c in s.parent && s.parent[c] == p
    && Loc(p, pn) in s.pt && Loc(c, pn) !in s.pt && pn != PN_HI
  }

  function MapChild(s: State, p: nat, c: nat, pn: nat): State
    requires CanMapChild(s, p, c, pn)
  {
    var pte := s.pt[Loc(p, pn)];
    var s' := SetPte(s, Loc(c, pn), ChildPte(pte));
    if !IsShare(pte) && (Writable(pte) || IsCow(pte)) then s'.(dup := s.dup[p := Dup(c, pn)]) else s'
  }

  // duppage(): our own mapping again.
  predicate CanMapSelf(s: State, p: nat) { Active(s, p) && p in s.dup }

  function MapSelf(s: State, p: nat): State
    requires CanMapSelf(s, p)
  {
    var a := Loc(p, s.dup[p].pn);
    (if a in s.pt then SetPte(s, a, CowPte(s.pt[a].frame)) else s).(dup := s.dup - {p})
  }

  // fork(): the exception stack of the child, which no other environment ever maps.  The
  // child gets a zeroed page, which is then copied over the parent's.
  ghost predicate CanStack(s: State, p: nat, c: nat, nf: nat) {
    && Active(s, p) && p !in s.dup && c in s.parent && s.parent[c] == p
    && Loc(p, PN_HI) in s.pt && Writable(s.pt[Loc(p, PN_HI)]) && !IsShare(s.pt[Loc(p, PN_HI)])
    && Loc(c, PN_HI) !in s.pt && nf < |s.data| && !Mapped(s.pt, s.temp, nf)
  }

  function ZeroPage(): Page { seq(PGSIZE, _ => 0) }

  function Stack(s: State, p: nat, c: nat, nf: nat): State
    requires Loc(p, PN_HI) in s.pt
  {
    SetPte(Put(Put(s, nf, ZeroPage()), s.pt[Loc(p, PN_HI)].frame, ZeroPage()), Loc(c, PN_HI), OwnPte(nf))
  }

  // fork(): sys_env_set_status.
  predicate CanForkDone(s: State, c: nat) {
    c in s.parent && Active(s, s.parent[c]) && s.parent[c] !in s.dup
  }

  function ForkDone(s: State, c: nat): State { s.(parent := s.parent - {c}) }


  lemma WriteKeeps(s: State, a: Loc, off: nat, v: int)
    requires Inv(s) && CanWrite(s, a, off)
    ensures Inv(Write(s, a, off, v))
  {
    var s' := Write(s, a, off, v);
    forall x ensures EntryOk(s', x) { assert EntryOk(s, x); }
    forall x, y ensures Apart(s', x, y) { assert Apart(s, x, y); }
    forall x ensures DupOk(s', x) { assert DupOk(s, x); }
    forall d, x ensures TempApart(s', d, x) { assert TempApart(s, d, x); }
    forall d, x ensures TempsApart(s', d, x) { assert TempsApart(s, d, x); }
    forall d ensures FaultOk(s', d) {
      assert FaultOk(s, d);
      if d in s.fault {
        assert Apart(s, a, Loc(d, s.fault[d].pn)) && EntryOk(s, Loc(d, s.fault[d].pn)) && TempApart(s, d, a);
      }
    }
  }

  lemma FaultAllocKeeps(s: State, a: Loc, nf: nat)
    requires Inv(s) && CanFaultAlloc(s, a, nf)
    ensures Inv(FaultAlloc(s, a, nf))
  {
    var s' := FaultAlloc(s, a, nf);
    forall x ensures EntryOk(s', x) { assert EntryOk(s, x); }
    forall x, y ensures Apart(s', x, y) { assert Apart(s, x, y); }
    forall x ensures DupOk(s', x) { assert DupOk(s, x); }
    forall d, x ensures TempApart(s', d, x) { assert TempApart(s, d, x) && !Maps(s.pt, x, nf); }
    forall d, x ensures TempsApart(s', d, x) { assert TempsApart(s, d, x); }
    forall d ensures FaultOk(s', d) {
      assert FaultOk(s, d);
      assert d in s.fault ==> !Maps(s.pt, Loc(d, s.fault[d].pn), nf);
    }
  }

  lemma FaultCopyKeeps(s: State, e: nat)
    requires Inv(s) && InFault(s, e, Allocated)
    ensures Inv(FaultCopy(s, e))
  {
    var s' := FaultCopy(s, e);
    assert FaultOk(s, e) && TempApart(s, e, Loc(e, s.fault[e].pn)) && EntryOk(s, Loc(e, s.fault[e].pn));
    forall x ensures EntryOk(s', x) { assert EntryOk(s, x); }
    forall x, y ensures Apart(s', x, y) { assert Apart(s, x, y); }
    forall x ensures DupOk(s', x) { assert DupOk(s, x); }
    forall d, x ensures TempApart(s', d, x) { assert TempApart(s, d, x); }
    forall d, x ensures TempsApart(s', d, x) { assert TempsApart(s, d, x); }
    forall d ensures FaultOk(s', d) {
      assert FaultOk(s, d) && TempsApart(s, d, e);
      if d in s.fault {
        assert TempApart(s, e, Loc(d, s.fault[d].pn));
      }
    }
  }

  lemma FaultUnmapKeeps(s: State, e: nat)
    requires Inv(s) && InFault(s, e, Copied)
    ensures Inv(FaultUnmap(s, e))
  {
    var s' := FaultUnmap(s, e);
    assert FaultOk(s, e) && EntryOk(s, Loc(e, s.fault[e].pn));
    forall x ensures EntryOk(s', x) { assert EntryOk(s, x); }
    forall x, y ensures Apart(s', x, y) { assert Apart(s, x, y); }
    forall x ensures DupOk(s', x) { assert DupOk(s, x); }
    forall d, x ensures TempApart(s', d, x) { assert TempApart(s, d, x); }
    forall d, x ensures TempsApart(s', d, x) { assert TempsApart(s, d, x); }
    forall d ensures FaultOk(s', d) { assert FaultOk(s, d); }
  }

  lemma FaultMapKeeps(s: State, e: nat)
    requires Inv(s) && InFault(s, e, Unmapped)
    ensures Inv(FaultMap(s, e))
  {
    var s' := FaultMap(s, e);
    var a := Loc(e, s.fault[e].pn);
    assert FaultOk(s, e);
    forall x ensures EntryOk(s', x) { assert EntryOk(s, x); }
    forall x, y ensures Apart(s', x, y) { assert Apart(s, x, y) && TempApart(s, e, x) && TempApart(s, e, y); }
    forall x ensures DupOk(s', x) { assert DupOk(s, x); }
    forall d, x ensures TempApart(s', d, x) { assert TempApart(s, d, x) && TempsApart(s, d, e); }
    forall d, x ensures TempsApart(s', d, x) { assert TempsApart(s, d, x); }
    forall d ensures FaultOk(s', d) { assert FaultOk(s, d); }
  }

  lemma FaultDoneKeeps(s: State, e: nat)
    requires Inv(s) && InFault(s, e, Remapped)
    ensures Inv(FaultDone(s, e))
  {
    var s' := FaultDone(s, e);
    forall x ensures EntryOk(s', x) { assert EntryOk(s, x); }
    forall x, y ensures Apart(s', x, y) { assert Apart(s, x, y); }
    forall x ensures DupOk(s', x) { assert DupOk(s, x); }
    forall d, x ensures TempApart(s', d, x) { assert TempApart(s, d, x); }
    forall d, x ensures TempsApart(s', d, x) { assert TempsApart(s, d, x); }
    forall d ensures FaultOk(s', d) { assert FaultOk(s, d); }
  }

  lemma ForkStartKeeps(s: State, p: nat, c: nat)
    requires Inv(s) && CanForkStart(s, p, c)
    ensures Inv(ForkStart(s, p, c))
  {
    var s' := ForkStart(s, p, c);
    forall x ensures EntryOk(s', x) { assert EntryOk(s, x); }
    forall x, y ensures Apart(s', x, y) { assert Apart(s, x, y); }
    forall x ensures DupOk(s', x) { assert DupOk(s, x); }
    forall d, x ensures TempApart(s', d, x) { assert TempApart(s, d, x); }
    forall d, x ensures TempsApart(s', d, x) { assert TempsApart(s, d, x); }
    forall d ensures FaultOk(s', d) { assert FaultOk(s, d); }
  }

  lemma MapChildApart(s: State, p: nat, c: nat, pn: nat, x: Loc, y: Loc)
    requires Inv(s) && CanMapChild(s, p, c, pn)
    ensures Apart(MapChild(s, p, c, pn), x, y)
  {
    var a := Loc(p, pn);
    assert Apart(s, x, y) && Apart(s, a, y) && Apart(s, x, a) && EntryOk(s, a);
  }

  lemma MapChildKeeps(s: State, p: nat, c: nat, pn: nat)
    requires Inv(s) && CanMapChild(s, p, c, pn)
    ensures Inv(MapChild(s, p, c, pn))
  {
    var s' := MapChild(s, p, c, pn);
    var a, b := Loc(p, pn), Loc(c, pn);
    assert EntryOk(s, a);
    forall x ensures EntryOk(s', x) { assert EntryOk(s, x); }
    forall x, y ensures Apart(s', x, y) { MapChildApart(s, p, c, pn, x, y); }
    forall x ensures DupOk(s', x) { assert DupOk(s, x); }
    forall d, x ensures TempApart(s', d, x) { assert TempApart(s, d, x) && TempApart(s, d, a); }
    forall d, x ensures TempsApart(s', d, x) { assert TempsApart(s, d, x); }
    forall d ensures FaultOk(s', d) { assert FaultOk(s, d); }
  }

  lemma StackKeeps(s: State, p: nat, c: nat, nf: nat)
    requires Inv(s) && CanStack(s, p, c, nf)
    ensures Inv(Stack(s, p, c, nf))
  {
    var a, s' := Loc(p, PN_HI), Stack(s, p, c, nf);
    assert EntryOk(s, a);
    forall x ensures EntryOk(s', x) { assert EntryOk(s, x); }
    forall x, y ensures Apart(s', x, y) { assert Apart(s, x, y) && !Maps(s.pt, x, nf) && !Maps(s.pt, y, nf); }
    forall x ensures DupOk(s', x) { assert DupOk(s, x); }
    forall d, x ensures TempApart(s', d, x) { assert TempApart(s, d, x); }
    forall d, x ensures TempsApart(s', d, x) { assert TempsApart(s, d, x); }
    forall d ensures FaultOk(s', d) {
      assert FaultOk(s, d);
      if d in s.fault {
        var x := Loc(d, s.fault[d].pn);
        assert Apart(s, a, x) && EntryOk(s, x) && TempApart(s, d, a) && !Maps(s.pt, x, nf);
      }
    }
  }

  lemma MapSelfKeeps(s: State, p: nat)
    requires Inv(s) && CanMapSelf(s, p)
    ensures Inv(MapSelf(s, p))
  {
    var s' := MapSelf(s, p);
    var a := Loc(p, s.dup[p].pn);
    assert DupOk(s, p) && EntryOk(s, a);
    forall x ensures EntryOk(s', x) { assert EntryOk(s, x); }
    forall x, y ensures Apart(s', x, y) { assert Apart(s, x, y) && Apart(s, x, a) && Apart(s, a, y); }
    forall x ensures DupOk(s', x) { assert DupOk(s, x); }
    forall d, x ensures TempApart(s', d, x) { assert TempApart(s, d, x); }
    forall d, x ensures TempsApart(s', d, x) { assert TempsApart(s, d, x); }
    forall d ensures FaultOk(s', d) { assert FaultOk(s, d); }
  }

  lemma ForkDoneKeeps(s: State, c: nat)
    requires Inv(s) && CanForkDone(s, c)
    ensures Inv(ForkDone(s, c))
  {
    var s' := ForkDone(s, c);
    forall x ensures EntryOk(s', x) { assert EntryOk(s, x); }
    forall x, y ensures Apart(s', x, y) { assert Apart(s, x, y); }
    forall x ensures DupOk(s', x) { assert DupOk(s, x); }
    forall d, x ensures TempApart(s', d, x) { assert TempApart(s, d, x); }
    forall d, x ensures TempsApart(s', d, x) { assert TempsApart(s, d, x); }
    forall d ensures FaultOk(s', d) { assert FaultOk(s, d); }
  }

  // ------------------------------------------------------------------
  // The simulation
  // ------------------------------------------------------------------

  // Pages the eager machine has, too: not the child's while it is half duplicated, but
  // also the one pgfault() has just unmapped.
  ghost predicate Visible(s: State, a: Loc) {
    (a in s.pt && !Half(s, a)) || Moving(s, a)
  }

  ghost function CellOf(s: State, a: Loc): Cell {
    if a in s.pt then
      var p := s.pt[a];
      if IsShare(p) then Common(p.frame, Writable(p)) else Own(Data(s, p.frame), Writable(p) || IsCow(p))
    else if a.e in s.temp then Own(Data(s, s.temp[a.e]), true)
    else Own([], false)
  }

  ghost predicate CellAgrees(s: State, t: Eager, a: Loc) {
    && (a in t.cells <==> Visible(s, a))
    && (a in t.cells ==> t.cells[a] == CellOf(s, a))
  }

  predicate Shares(s: State, a: Loc, f: nat) { Maps(s.pt, a, f) && IsShare(s.pt[a]) }

  ghost predicate PoolAgrees(s: State, t: Eager, f: nat) {
    && (f in t.pool <==> exists a :: Shares(s, a, f))
    && (f in t.pool ==> t.pool[f] == Data(s, f))
  }

  ghost predicate Sim(s: State, t: Eager) {
    && (forall a {:trigger CellAgrees(s, t, a)} :: CellAgrees(s, t, a))
    && (forall f {:trigger PoolAgrees(s, t, f)} :: PoolAgrees(s, t, f))
  }

  // What the eager machine does when duppage() maps the page in the child: a page the
  // parent can still write to is copied only when it gives that up.
  ghost function EagerChild(s: State, t: Eager, p: nat, c: nat, pn: nat): Eager
    requires CanMapChild(s, p, c, pn)
  {
    var pte := s.pt[Loc(p, pn)];
    if Writable(pte) && !IsShare(pte) then t else EagerCopy(t, p, c, pn)
  }

  ghost function EagerStack(t: Eager, p: nat, c: nat): Eager {
    t.(cells := t.cells[Loc(p, PN_HI) := Own(ZeroPage(), true)][Loc(c, PN_HI) := Own(ZeroPage(), true)])
  }

  ghost function EagerSelf(s: State, t: Eager, p: nat): Eager
    requires CanMapSelf(s, p)
  {
    var d := s.dup[p];
    if Half(s, Loc(d.child, d.pn)) then EagerCopy(t, p, d.child, d.pn) else t
  }

  lemma WriteSim(s: State, t: Eager, a: Loc, off: nat, v: int)
    requires Inv(s) && Sim(s, t) && CanWrite(s, a, off)
    ensures Sim(Write(s, a, off, v), EagerWrite(t, a, off, v))
  {
    var s', t' := Write(s, a, off, v), EagerWrite(t, a, off, v);
    assert EntryOk(s, a) && CellAgrees(s, t, a) && PoolAgrees(s, t, s.pt[a].frame);
    assert Visible(s, a);
    forall x ensures CellAgrees(s', t', x) { assert CellAgrees(s, t, x) && FaultOk(s, x.e) && Apart(s, a, x) && TempApart(s, x.e, a) && EntryOk(s, x); }
    forall f ensures PoolAgrees(s', t', f) {
      assert PoolAgrees(s, t, f);
      if x :| Shares(s, x, f) { assert Apart(s, a, x); }
      assert forall x :: Shares(s, x, f) <==> Shares(s', x, f);
    }
  }

  lemma FaultAllocSim(s: State, t: Eager, a: Loc, nf: nat)
    requires Inv(s) && Sim(s, t) && CanFaultAlloc(s, a, nf)
    ensures Sim(FaultAlloc(s, a, nf), t)
  {
    var s', t' := FaultAlloc(s, a, nf), t;
    forall x ensures CellAgrees(s', t', x) { assert CellAgrees(s, t, x) && FaultOk(s, x.e) && !Maps(s.pt, x, nf); }
    forall f ensures PoolAgrees(s', t', f) {
      assert PoolAgrees(s, t, f);
      assert forall x :: Shares(s, x, f) <==> Shares(s', x, f);
    }
  }

  lemma FaultCopySim(s: State, t: Eager, e: nat)
    requires Inv(s) && Sim(s, t) && InFault(s, e, Allocated)
    ensures Sim(FaultCopy(s, e), t)
  {
    var s', t' := FaultCopy(s, e), t;
    assert FaultOk(s, e);
    forall x ensures CellAgrees(s', t', x) { assert CellAgrees(s, t, x) && FaultOk(s, x.e) && TempApart(s, e, x) && TempsApart(s, e, x.e); }
    forall f ensures PoolAgrees(s', t', f) {
      assert PoolAgrees(s, t, f);
      if x :| Shares(s, x, f) { assert TempApart(s, e, x); }
      assert forall x :: Shares(s, x, f) <==> Shares(s', x, f);
    }
  }

  lemma FaultUnmapSim(s: State, t: Eager, e: nat)
    requires Inv(s) && Sim(s, t) && InFault(s, e, Copied)
    ensures Sim(FaultUnmap(s, e), t)
  {
    var s', t' := FaultUnmap(s, e), t;
    assert FaultOk(s, e) && EntryOk(s, Loc(e, s.fault[e].pn)) && CellAgrees(s, t, Loc(e, s.fault[e].pn));
    forall x ensures CellAgrees(s', t', x) { assert CellAgrees(s, t, x) && FaultOk(s, x.e); }
    forall f ensures PoolAgrees(s', t', f) {
      assert PoolAgrees(s, t, f);
      assert forall x :: Shares(s, x, f) <==> Shares(s', x, f);
    }
  }

  lemma FaultMapSim(s: State, t: Eager, e: nat)
    requires Inv(s) && Sim(s, t) && InFault(s, e, Unmapped)
    ensures Sim(FaultMap(s, e), t)
  {
    var s', t' := FaultMap(s, e), t;
    var a := Loc(e, s.fault[e].pn);
    assert FaultOk(s, e) && CellAgrees(s, t, a);
    forall x ensures CellAgrees(s', t', x) { assert CellAgrees(s, t, x) && FaultOk(s, x.e) && TempApart(s, e, x); }
    forall f ensures PoolAgrees(s', t', f) {
      assert PoolAgrees(s, t, f);
      assert forall x :: Shares(s, x, f) <==> Shares(s', x, f);
    }
  }

  lemma FaultDoneSim(s: State, t: Eager, e: nat)
    requires Inv(s) && Sim(s, t) && InFault(s, e, Remapped)
    ensures Sim(FaultDone(s, e), t)
  {
    var s', t' := FaultDone(s, e), t;
    assert FaultOk(s, e);
    forall x ensures CellAgrees(s', t', x) { assert CellAgrees(s, t, x) && FaultOk(s, x.e); }
    forall f ensures PoolAgrees(s', t', f) {
      assert PoolAgrees(s, t, f);
      assert forall x :: Shares(s, x, f) <==> Shares(s', x, f);
    }
  }

  lemma ForkStartSim(s: State, t: Eager, p: nat, c: nat)
    requires Inv(s) && Sim(s, t) && CanForkStart(s, p, c)
    ensures Sim(ForkStart(s, p, c), t)
  {
    var s', t' := ForkStart(s, p, c), t;
    forall x ensures CellAgrees(s', t', x) { assert CellAgrees(s, t, x) && FaultOk(s, x.e); }
    forall f ensures PoolAgrees(s', t', f) {
      assert PoolAgrees(s, t, f);
      assert forall x :: Shares(s, x, f) <==> Shares(s', x, f);
    }
  }

  lemma MapChildSim(s: State, t: Eager, p: nat, c: nat, pn: nat)
    requires Inv(s) && Sim(s, t) && CanMapChild(s, p, c, pn)
    ensures Sim(MapChild(s, p, c, pn), EagerChild(s, t, p, c, pn))
  {
    var s', t' := MapChild(s, p, c, pn), EagerChild(s, t, p, c, pn);
    var a := Loc(p, pn);
    assert EntryOk(s, a) && CellAgrees(s, t, a);
    assert Visible(s, a) && DupOk(s, c) && FaultOk(s, c);
    forall x ensures CellAgrees(s', t', x) { assert CellAgrees(s, t, x) && FaultOk(s, x.e) && Apart(s, a, x); }
    forall f ensures PoolAgrees(s', t', f) {
      assert PoolAgrees(s, t, f);
      assert forall x :: x != Loc(c, pn) ==> (Shares(s, x, f) <==> Shares(s', x, f));
      assert Shares(s', Loc(c, pn), f) ==> Shares(s, a, f);
    }
  }

  lemma StackSim(s: State, t: Eager, p: nat, c: nat, nf: nat)
    requires Inv(s) && Sim(s, t) && CanStack(s, p, c, nf)
    ensures Sim(Stack(s, p, c, nf), EagerStack(t, p, c))
  {
    var a := Loc(p, PN_HI);
    var s', t' := Stack(s, p, c, nf), EagerStack(t, p, c);
    assert EntryOk(s, a) && DupOk(s, c) && FaultOk(s, c);
    forall x ensures CellAgrees(s', t', x) {
      assert CellAgrees(s, t, x) && FaultOk(s, x.e) && Apart(s, a, x) && TempApart(s, x.e, a) && EntryOk(s, x) && !Maps(s.pt, x, nf);
    }
    forall f ensures PoolAgrees(s', t', f) {
      assert PoolAgrees(s, t, f);
      if x :| Shares(s, x, f) { assert Apart(s, a, x) && !Maps(s.pt, x, nf); }
      assert forall x :: Shares(s, x, f) <==> Shares(s', x, f);
    }
  }

  lemma MapSelfSim(s: State, t: Eager, p: nat)
    requires Inv(s) && Sim(s, t) && CanMapSelf(s, p)
    ensures Sim(MapSelf(s, p), EagerSelf(s, t, p))
  {
    var s', t' := MapSelf(s, p), EagerSelf(s, t, p);
    var a := Loc(p, s.dup[p].pn);
    assert DupOk(s, p) && EntryOk(s, a) && CellAgrees(s, t, a);
    forall x ensures CellAgrees(s', t', x) { assert CellAgrees(s, t, x) && FaultOk(s, x.e) && Apart(s, a, x); }
    forall f ensures PoolAgrees(s', t', f) {
      assert PoolAgrees(s, t, f);
      assert forall x :: Shares(s, x, f) <==> Shares(s', x, f);
    }
  }

  lemma ForkDoneSim(s: State, t: Eager, c: nat)
    requires Inv(s) && Sim(s, t) && CanForkDone(s, c)
    ensures Sim(ForkDone(s, c), t)
  {
    var s', t' := ForkDone(s, c), t;
    forall x ensures CellAgrees(s', t', x) { assert CellAgrees(s, t, x) && FaultOk(s, x.e); }
    forall f ensures PoolAgrees(s', t', f) {
      assert PoolAgrees(s, t, f);
      assert forall x :: Shares(s, x, f) <==> Shares(s', x, f);
    }
  }

  // ------------------------------------------------------------------
  // Runs
  // ------------------------------------------------------------------

  datatype Step =
    | DoRead(a: Loc, off: nat)
    | DoWrite(a: Loc, off: nat, v: int)
    | DoFaultAlloc(a: Loc, nf: nat)
    | DoFaultCopy(e: nat)
    | DoFaultUnmap(e: nat)
    | DoFaultMap(e: nat)
    | DoFaultDone(e: nat)
    | DoForkStart(p: nat, c: nat)
    | DoMapChild(p: nat, c: nat, pn: nat)
    | DoMapSelf(p: nat)
    | DoStack(p: nat, c: nat, nf: nat)
    | DoForkDone(c: nat)

  predicate CanRead(s: State, a: Loc, off: nat) {
    Active(s, a.e) && a in s.pt && Accessible(s.pt[a]) && off < |Data(s, s.pt[a].frame)|
  }

  ghost predicate Enabled(s: State, step: Step) {
    match step
    case DoRead(a, off) => CanRead(s, a, off)
    case DoWrite(a, off, _) => CanWrite(s, a, off)
    case DoFaultAlloc(a, nf) => CanFaultAlloc(s, a, nf)
    case DoFaultCopy(e) => InFault(s, e, Allocated)
    case DoFaultUnmap(e) => InFault(s, e, Copied)
    case DoFaultMap(e) => InFault(s, e, Unmapped)
    case DoFaultDone(e) => InFault(s, e, Remapped)
    case DoForkStart(p, c) => CanForkStart(s, p, c)
    case DoMapChild(p, c, pn) => CanMapChild(s, p, c, pn)
    case DoMapSelf(p) => CanMapSelf(s, p)
    case DoStack(p, c, nf) => CanStack(s, p, c, nf)
    case DoForkDone(c) => CanForkDone(s, c)
  }

  ghost function Next(s: State, step: Step): State
    requires Enabled(s, step)
  {
    match step
    case DoRead(_, _) => s
    case DoWrite(a, off, v) => Write(s, a, off, v)
    case DoFaultAlloc(a, nf) => FaultAlloc(s, a, nf)
    case DoFaultCopy(e) => FaultCopy(s, e)
    case DoFaultUnmap(e) => FaultUnmap(s, e)
    case DoFaultMap(e) => FaultMap(s, e)
    case DoFaultDone(e) => FaultDone(s, e)
    case DoForkStart(p, c) => ForkStart(s, p, c)
    case DoMapChild(p, c, pn) => MapChild(s, p, c, pn)
    case DoMapSelf(p) => MapSelf(s, p)
    case DoStack(p, c, nf) => Stack(s, p, c, nf)
    case DoForkDone(c) => ForkDone(s, c)
  }

  // The eager machine copies pages and stores into them, and does nothing else.
  ghost function EagerNext(s: State, t: Eager, step: Step): Eager
    requires Enabled(s, step)
  {
    match step
    case DoWrite(a, off, v) => EagerWrite(t, a, off, v)
    case DoMapChild(p, c, pn) => EagerChild(s, t, p, c, pn)
    case DoMapSelf(p) => EagerSelf(s, t, p)
    case DoStack(p, c, _) => EagerStack(t, p, c)
    case _ => t
  }

  lemma NextKeeps(s: State, step: Step)
    requires Inv(s) && Enabled(s, step)
    ensures Inv(Next(s, step))
  {
    match step
    case DoRead(_, _) =>
    case DoWrite(a, off, v) => WriteKeeps(s, a, off, v);
    case DoFaultAlloc(a, nf) => FaultAllocKeeps(s, a, nf);
    case DoFaultCopy(e) => FaultCopyKeeps(s, e);
    case DoFaultUnmap(e) => FaultUnmapKeeps(s, e);
    case DoFaultMap(e) => FaultMapKeeps(s, e);
    case DoFaultDone(e) => FaultDoneKeeps(s, e);
    case DoForkStart(p, c) => ForkStartKeeps(s, p, c);
    case DoMapChild(p, c, pn) => MapChildKeeps(s, p, c, pn);
    case DoMapSelf(p) => MapSelfKeeps(s, p);
    case DoStack(p, c, nf) => StackKeeps(s, p, c, nf);
    case DoForkDone(c) => ForkDoneKeeps(s, c);
  }

  lemma NextSim(s: State, t: Eager, step: Step)
    requires Inv(s) && Sim(s, t) && Enabled(s, step)
    ensures Sim(Next(s, step), EagerNext(s, t, step))
  {
    match step
    case DoRead(_, _) =>
    case DoWrite(a, off, v) => WriteSim(s, t, a, off, v);
    case DoFaultAlloc(a, nf) => FaultAllocSim(s, t, a, nf);
    case DoFaultCopy(e) => FaultCopySim(s, t, e);
    case DoFaultUnmap(e) => FaultUnmapSim(s, t, e);
    case DoFaultMap(e) => FaultMapSim(s, t, e);
    case DoFaultDone(e) => FaultDoneSim(s, t, e);
    case DoForkStart(p, c) => ForkStartSim(s, t, p, c);
    case DoMapChild(p, c, pn) => MapChildSim(s, t, p, c, pn);
    case DoMapSelf(p) => MapSelfSim(s, t, p);
    case DoStack(p, c, nf) => StackSim(s, t, p, c, nf);
    case DoForkDone(c) => ForkDoneSim(s, t, c);
  }

  ghost predicate Runs(s: State, steps: seq<Step>)
    decreases |steps|
  {
    steps == [] || (Enabled(s, steps[0]) && Runs(Next(s, steps[0]), steps[1..]))
  }

  // The values read along a run, by either machine.
  ghost function Observed(s: State, steps: seq<Step>): seq<int>
    requires Runs(s, steps)
    decreases |steps|
  {
    if steps == [] then []
    else
      (match steps[0] case DoRead(a, off) => [Data(s, s.pt[a].frame)[off]] case _ => [])
      + Observed(Next(s, steps[0]), steps[1..])
  }

  ghost function EagerLoad(t: Eager, a: Loc, off: nat): seq<int> {
    if a in t.cells && (t.cells[a].Common? ==> t.cells[a].id in t.pool) && off < |Contents(t, a)|
    then [Contents(t, a)[off]] else []
  }

  ghost function EagerObserved(s: State, t: Eager, steps: seq<Step>): seq<int>
    requires Runs(s, steps)
    decreases |steps|
  {
    if steps == [] then []
    else
      (match steps[0] case DoRead(a, off) => EagerLoad(t, a, off) case _ => [])
      + EagerObserved(Next(s, steps[0]), EagerNext(s, t, steps[0]), steps[1..])
  }

  // Every read returns what it would under eager copying.
  lemma ReadAgrees(s: State, t: Eager, a: Loc, off: nat)
    requires Inv(s) && Sim(s, t) && CanRead(s, a, off)
    ensures EagerLoad(t, a, off) == [Data(s, s.pt[a].frame)[off]]
  {
    assert CellAgrees(s, t, a) && Visible(s, a);
    if IsShare(s.pt[a]) {
      assert PoolAgrees(s, t, s.pt[a].frame) && Shares(s, a, s.pt[a].frame);
    }
  }

  // An environment can read every page it has, and write those it may or take a fault there.
  lemma PagesUsable(s: State, a: Loc, off: nat)
    requires Inv(s) && Active(s, a.e) && a in s.pt && off < PGSIZE
    ensures CanRead(s, a, off) && (CanWrite(s, a, off) <==> Writable(s.pt[a]))
  {
    assert EntryOk(s, a);
  }

  lemma {:induction false} CopyOnWriteIsEagerCopy(s: State, t: Eager, steps: seq<Step>)
    requires Inv(s) && Sim(s, t) && Runs(s, steps)
    ensures Observed(s, steps) == EagerObserved(s, t, steps)
    decreases |steps|
  {
    if steps != [] {
      var step := steps[0];
      if step.DoRead? { ReadAgrees(s, t, step.a, step.off); }
      NextKeeps(s, step);
      NextSim(s, t, step);
      CopyOnWriteIsEagerCopy(Next(s, step), EagerNext(s, t, step), steps[1..]);
    }
  }

  // The eager state that a state stands for.
  ghost function Erase(s: State): Eager {
    var moving := set e | e in s.fault :: Loc(e, s.fault[e].pn);
    Eager(
      map a | a in s.pt.Keys + moving && Visible(s, a) :: CellOf(s, a),
      map f | f in (set a | a in s.pt && IsShare(s.pt[a]) :: s.pt[a].frame) :: Data(s, f))
  }

  lemma EraseSim(s: State)
    ensures Sim(s, Erase(s))
  {
    var t := Erase(s);
    forall a ensures CellAgrees(s, t, a) { }
    forall f ensures PoolAgrees(s, t, f) {
      assert forall a :: Shares(s, a, f) <==> a in s.pt && IsShare(s.pt[a]) && s.pt[a].frame == f;
    }
  }

  // Nothing is going on, and no page has been copied on write so far.
  ghost predicate Init(s: State) {
    && s.temp == map[] && s.fault == map[] && s.dup == map[] && s.parent == map[]
    && (forall f :: 0 <= f < |s.data| ==> |s.data[f]| == PGSIZE)
    && (forall a :: a in s.pt ==> s.pt[a].frame < |s.data| && Accessible(s.pt[a]) && !IsCow(s.pt[a]))
    && (forall a, b :: a in s.pt && b in s.pt && a != b && s.pt[a].frame == s.pt[b].frame ==>
          IsShare(s.pt[a]) && IsShare(s.pt[b]))
  }

  lemma InitOk(s: State)
    requires Init(s)
    ensures Inv(s)
  {
    forall a ensures EntryOk(s, a) { }
    forall a, b ensures Apart(s, a, b) { }
  }

  // From any such state, whatever is run, no read tells copy-on-write from eager copying.
  lemma ForkIsTransparent(s: State, steps: seq<Step>)
    requires Init(s) && Runs(s, steps)
    ensures Observed(s, steps) == EagerObserved(s, Erase(s), steps)
  {
    InitOk(s);
    EraseSim(s);
    CopyOnWriteIsEagerCopy(s, Erase(s), steps);
  }

  ghost function Final(s: State, steps: seq<Step>): State
    requires Runs(s, steps)
    decreases |steps|
  {
    if steps == [] then s else Final(Next(s, steps[0]), steps[1..])
  }

  lemma {:induction false} RunKeeps(s: State, steps: seq<Step>)
    requires Inv(s) && Runs(s, steps)
    ensures Inv(Final(s, steps))
    decreases |steps|
  {
    if steps != [] {
      NextKeeps(s, steps[0]);
      RunKeeps(Next(s, steps[0]), steps[1..]);
    }
  }

  // After any run, two mappings of one frame are both of a page marked PTE_SHARE, or
  // neither is writable; except that a parent may write to a page it is just duplicating,
  // which its child, not yet started, has already mapped.
  lemma SharedMeansReadOnly(s: State, steps: seq<Step>, a: Loc, b: Loc)
    requires Init(s) && Runs(s, steps) && a != b
    ensures var t := Final(s, steps);
            a in t.pt && b in t.pt && t.pt[a].frame == t.pt[b].frame ==>
              || (IsShare(t.pt[a]) && IsShare(t.pt[b]))
              || (!Writable(t.pt[a]) && !Writable(t.pt[b]))
              || (Half(t, a) && !Writable(t.pt[a]) && a.e in t.parent)
              || (Half(t, b) && !Writable(t.pt[b]) && b.e in t.parent)
  {
    InitOk(s);
    RunKeeps(s, steps);
    var t := Final(s, steps);
    assert Apart(t, a, b) && Apart(t, b, a) && EntryOk(t, a) && EntryOk(t, b);
    if Half(t, a) { assert DupOk(t, t.parent[a.e]); }
    if Half(t, b) { assert DupOk(t, t.parent[b.e]); }
  }

  // What environment `a.e` finds in a page.
  ghost function View(s: State, a: Loc): Page {
    if a in s.pt then Data(s, s.pt[a].frame) else if a.e in s.temp then Data(s, s.temp[a.e]) else []
  }

  // A store shows in the page stored to, and in others only if the page is shared.
  lemma StoreShowsWhereShared(s: State, a: Loc, off: nat, v: int, x: Loc)
    requires Inv(s) && CanWrite(s, a, off) && Visible(s, x)
    ensures View(Write(s, a, off, v), x) ==
            if x == a || (Shares(s, a, s.pt[a].frame) && Maps(s.pt, x, s.pt[a].frame)) then View(s, a)[off := v]
            else View(s, x)
  {
    assert Apart(s, a, x) && TempApart(s, x.e, a) && FaultOk(s, x.e) && EntryOk(s, a);
  }

  // ------------------------------------------------------------------
  // The library calls, made without interruption
  // ------------------------------------------------------------------

  // `t` after `p`'s pages PN_LO .. k have been copied to `c`.
  ghost predicate CopiedUpTo(t0: Eager, t: Eager, p: nat, c: nat, k: nat) {
    && t.pool == t0.pool
    && (forall a: Loc :: a.e != c ==> (a in t.cells <==> a in t0.cells) && (a in t.cells ==> t.cells[a] == t0.cells[a]))
    && (forall a: Loc :: a.e == c ==>
          && (a in t.cells <==> PN_LO <= a.pn < k && Loc(p, a.pn) in t0.cells)
          && (a in t.cells ==> t.cells[a] == t0.cells[Loc(p, a.pn)]))
  }

  // The child has what the parent had, and an exception stack of its own; the parent's is
  // cleared; nobody else notices.
  ghost predicate Forked(t0: Eager, t: Eager, p: nat, c: nat) {
    && t.pool == t0.pool
    && (forall a: Loc :: a.e != c && a != Loc(p, PN_HI) ==>
          (a in t.cells <==> a in t0.cells) && (a in t.cells ==> t.cells[a] == t0.cells[a]))
    && Loc(p, PN_HI) in t.cells && t.cells[Loc(p, PN_HI)] == Own(ZeroPage(), true)
    && Loc(c, PN_HI) in t.cells && t.cells[Loc(c, PN_HI)] == Own(ZeroPage(), true)
    && (forall a: Loc :: a.e == c && a.pn != PN_HI ==>
          && (a in t.cells <==> PN_LO <= a.pn < PN_HI && Loc(p, a.pn) in t0.cells)
          && (a in t.cells ==> t.cells[a] == t0.cells[Loc(p, a.pn)]))
  }

  // Only frames that were mapped are, and the exception stacks are as before.
  ghost predicate SameFrames(s: State, s': State) {
    && |s'.data| == |s.data| && (forall f :: Mapped(s'.pt, s'.temp, f) ==> Mapped(s.pt, s.temp, f))
    && (forall a: Loc :: a.pn == PN_HI ==> (a in s'.pt <==> a in s.pt) && (a in s.pt ==> s'.pt[a] == s.pt[a]))
  }

  lemma SetPteFrames(s: State, a: Loc, b: Loc, pte: Pte)
    requires Maps(s.pt, a, pte.frame) && b.pn != PN_HI
    ensures SameFrames(s, SetPte(s, b, pte))
  {
    var s' := SetPte(s, b, pte);
    forall f | Mapped(s'.pt, s'.temp, f) ensures Mapped(s.pt, s.temp, f) {
      if x :| Maps(s'.pt, x, f) {
        assert Maps(s.pt, if x == b then a else x, f);
      }
    }
  }

  // The page number the outer loop of fork() has got to.
  function Reached(i: nat): nat {
    if i * NPTENTRIES < PN_HI then i * NPTENTRIES else PN_HI
  }

  lemma CopyStart(s: State, t: Eager, p: nat, c: nat)
    requires Sim(s, t) && CanForkStart(s, p, c)
    ensures CopiedUpTo(t, t, p, c, PN_LO)
  {
    forall a: Loc | a.e == c ensures a !in t.cells {
      assert CellAgrees(s, t, a);
    }
  }

  lemma CopyOne(t0: Eager, t: Eager, p: nat, c: nat, k: nat)
    requires CopiedUpTo(t0, t, p, c, k) && PN_LO <= k && p != c
    ensures CopiedUpTo(t0, if Loc(p, k) in t.cells then EagerCopy(t, p, c, k) else t, p, c, k + 1)
  {
  }

  // A page table that is not there maps nothing.
  lemma CopyNone(s: State, t0: Eager, t: Eager, p: nat, c: nat, k: nat, m: nat)
    requires Inv(s) && Sim(s, t) && Active(s, p) && CopiedUpTo(t0, t, p, c, k) && PN_LO <= k <= m && p != c
    requires forall x :: k <= x < m ==> Loc(p, x) !in s.pt
    ensures CopiedUpTo(t0, t, p, c, m)
  {
    forall x | k <= x < m ensures Loc(p, x) !in t0.cells {
      assert CellAgrees(s, t, Loc(p, x));
    }
  }

  class Library {
    var s: State
    ghost var t: Eager

    ghost predicate Valid()
      reads this
    {
      Inv(s) && Sim(s, t)
    }

    constructor (start: State)
      requires Inv(start)
      ensures Valid() && s == start && t == Erase(start)
    {
      s, t := start, Erase(start);
      new;
      EraseSim(start);
    }

    // sys_page_alloc(PFTEMP); memmove(PFTEMP, addr, PGSIZE)
    method CopyToTemp(e: nat, pn: nat, nf: nat)
      requires Valid() && CanFaultAlloc(s, Loc(e, pn), nf)
      modifies this`s
      ensures Valid() && InFault(s, e, Copied)
      ensures s == old(s).(temp := old(s).temp[e := nf], fault := old(s).fault[e := Fault(pn, Copied)], data := s.data)
    {
      FaultAllocKeeps(s, Loc(e, pn), nf);
      FaultAllocSim(s, t, Loc(e, pn), nf);
      s := FaultAlloc(s, Loc(e, pn), nf);
      FaultCopyKeeps(s, e);
      FaultCopySim(s, t, e);
      s := FaultCopy(s, e);
    }

    // sys_page_unmap(addr); sys_page_map(PFTEMP, addr); sys_page_unmap(PFTEMP)
    method MoveFromTemp(e: nat)
      requires Valid() && InFault(s, e, Copied)
      modifies this`s
      ensures Valid()
      ensures s == old(s).(pt := old(s).pt[Loc(e, old(s).fault[e].pn) := OwnPte(old(s).temp[e])],
                           temp := old(s).temp - {e}, fault := old(s).fault - {e})
    {
      FaultUnmapKeeps(s, e);
      FaultUnmapSim(s, t, e);
      s := FaultUnmap(s, e);
      FaultMapKeeps(s, e);
      FaultMapSim(s, t, e);
      s := FaultMap(s, e);
      FaultDoneKeeps(s, e);
      FaultDoneSim(s, t, e);
      s := FaultDone(s, e);
    }

    // pgfault(); `nf` is the page sys_page_alloc() finds.
    method PgFault(e: nat, pn: nat, write: bool, nf: Option<nat>) returns (ok: bool)
      requires Valid() && Active(s, e) && Loc(e, pn) in s.pt
      requires nf.Some? ==> nf.value < |s.data| && !Mapped(s.pt, s.temp, nf.value)
      modifies this
      ensures Valid() && t == old(t)
      ensures ok <==> write && IsCow(old(s).pt[Loc(e, pn)]) && nf.Some?
      ensures !ok ==> s == old(s)
      ensures ok ==> s == old(s).(pt := old(s).pt[Loc(e, pn) := OwnPte(nf.value)], data := s.data)
      // the page is a writable copy of what was there
      ensures ok ==> Accessible(s.pt[Loc(e, pn)]) && Writable(s.pt[Loc(e, pn)])
                     && Data(s, nf.value) == Data(old(s), old(s).pt[Loc(e, pn)].frame)
    {
      if !write || !IsCow(s.pt[Loc(e, pn)]) || nf.None? { return false; }
      assert FaultOk(s, e);
      ghost var a := Loc(e, pn);
      assert EntryOk(s, a) && CellAgrees(s, t, a);
      CopyToTemp(e, pn, nf.value);
      MoveFromTemp(e);
      assert CellAgrees(s, t, a);
      return true;
    }

    method DupPage(p: nat, c: nat, pn: nat)
      requires Valid() && CanMapChild(s, p, c, pn)
      modifies this
      ensures Valid() && t == EagerCopy(old(t), p, c, pn)
      ensures s == old(s).(pt := s.pt) && SameFrames(old(s), s)
      ensures forall a :: a != Loc(c, pn) ==> (a in s.pt <==> a in old(s).pt)
    {
      var pte := s.pt[Loc(p, pn)];
      SetPteFrames(s, Loc(p, pn), Loc(c, pn), ChildPte(pte));
      MapChildKeeps(s, p, c, pn);
      MapChildSim(s, t, p, c, pn);
      t := EagerChild(s, t, p, c, pn);
      s := MapChild(s, p, c, pn);
      if !IsShare(pte) && (Writable(pte) || IsCow(pte)) {
        SetPteFrames(s, Loc(p, pn), Loc(p, pn), CowPte(pte.frame));
        MapSelfKeeps(s, p);
        MapSelfSim(s, t, p);
        t := EagerSelf(s, t, p);
        s := MapSelf(s, p);
      }
    }

    // Between sys_exofork() and sys_env_set_status().
    ghost predicate Forking(p: nat, c: nat, dirs: set<nat>)
      reads this
    {
      && p != c && Active(s, p) && p !in s.dup && c in s.parent && s.parent[c] == p && c !in s.fault
      && forall a :: a in s.pt && a.e == p ==> a.pn / NPTENTRIES in dirs
    }

    // Part of fork() done, with no new frame since state `s0`.
    ghost predicate Going(p: nat, c: nat, dirs: set<nat>, t0: Eager, s0: State, k: nat)
      reads this
    {
      Valid() && Forking(p, c, dirs) && CopiedUpTo(t0, t, p, c, k) && SameFrames(s0, s)
    }

    // The body of the inner loop of fork().
    method DupOne(p: nat, c: nat, pn: nat, ghost dirs: set<nat>, ghost t0: Eager, ghost s0: State)
      requires Going(p, c, dirs, t0, s0, pn) && PN_LO <= pn < PN_HI
      modifies this
      ensures Going(p, c, dirs, t0, s0, pn + 1)
    {
      CopyOne(t0, t, p, c, pn);
      assert CellAgrees(s, t, Loc(p, pn)) && CellAgrees(s, t, Loc(c, pn));
      if Loc(p, pn) in s.pt {
        DupPage(p, c, pn);
      }
    }

    // The inner loop of fork().
    method DupTable(p: nat, c: nat, i: nat, ghost dirs: set<nat>, ghost t0: Eager, ghost s0: State)
      requires Going(p, c, dirs, t0, s0, Reached(i)) && PN_LO <= i * NPTENTRIES < PN_HI
      modifies this
      ensures Going(p, c, dirs, t0, s0, Reached(i + 1))
    {
      var j := 0;
      while j < NPTENTRIES
        invariant 0 <= j <= NPTENTRIES && i * NPTENTRIES + j <= PN_HI
        invariant Going(p, c, dirs, t0, s0, i * NPTENTRIES + j)
      {
        var pn := i * NPTENTRIES + j;
        if pn == PN_HI { break; }
        DupOne(p, c, pn, dirs, t0, s0);
        j := j + 1;
      }
    }

    // The body of the outer loop of fork().
    method DupDirectory(p: nat, c: nat, i: nat, dirs: set<nat>, ghost t0: Eager, ghost s0: State)
      requires Going(p, c, dirs, t0, s0, Reached(i)) && PN_LO <= i * NPTENTRIES < PN_HI
      modifies this
      ensures Going(p, c, dirs, t0, s0, Reached(i + 1))
    {
      if i in dirs {
        DupTable(p, c, i, dirs, t0, s0);
      } else {
        CopyNone(s, t0, t, p, c, Reached(i), Reached(i + 1));
      }
    }

    // The outer loop of fork().
    method DupTables(p: nat, c: nat, dirs: set<nat>, ghost t0: Eager, ghost s0: State)
      requires Going(p, c, dirs, t0, s0, PN_LO)
      modifies this
      ensures Going(p, c, dirs, t0, s0, PN_HI)
    {
      var i := PN_LO / NPTENTRIES;
      while i < (PN_HI + 1) / NPTENTRIES
        invariant PN_LO / NPTENTRIES <= i <= (PN_HI + 1) / NPTENTRIES && Going(p, c, dirs, t0, s0, Reached(i))
      {
        DupDirectory(p, c, i, dirs, t0, s0);
        i := i + 1;
      }
    }

    // fork(); `c` is what sys_exofork() returns, `dirs` the page directory entries
    // present in the parent, and `nf` the page found for the child's exception stack.
    // False stands for panic().
    method Fork(p: nat, c: nat, dirs: set<nat>, nf: Option<nat>) returns (ok: bool)
      requires Valid() && CanForkStart(s, p, c) && p !in s.dup
      requires forall a :: a in s.pt && a.e == p ==> a.pn / NPTENTRIES in dirs
      // set_pgfault_handler() has seen to the exception stack of the parent
      requires Loc(p, PN_HI) in s.pt && Writable(s.pt[Loc(p, PN_HI)]) && !IsShare(s.pt[Loc(p, PN_HI)])
      requires nf.Some? ==> nf.value < |s.data| && !Mapped(s.pt, s.temp, nf.value)
      modifies this
      ensures Valid() && (ok <==> nf.Some?)
      ensures ok ==> Forked(old(t), t, p, c) && Active(s, c) && Active(s, p)
      ensures !ok ==> CopiedUpTo(old(t), t, p, c, PN_HI) && c in s.parent
    {
      CopyStart(s, t, p, c);
      ForkStartKeeps(s, p, c);
      ForkStartSim(s, t, p, c);
      s := ForkStart(s, p, c);
      DupTables(p, c, dirs, old(t), s);
      if nf.None? {
        return false;
      }
      SetUpStack(p, c, nf.value, old(t));
      ForkDoneKeeps(s, c);
      ForkDoneSim(s, t, c);
      s := ForkDone(s, c);
      return true;
    }

    // Lines 149 to 161 of fork().
    method SetUpStack(p: nat, c: nat, nf: nat, ghost t0: Eager)
      requires Valid() && CanStack(s, p, c, nf) && CopiedUpTo(t0, t, p, c, PN_HI) && p != c
      modifies this
      ensures Valid() && Forked(t0, t, p, c) && s == old(s).(pt := s.pt, data := s.data)
    {
      StackKeeps(s, p, c, nf);
      StackSim(s, t, p, c, nf);
      t := EagerStack(t, p, c);
      s := Stack(s, p, c, nf);
    }
  }
}
