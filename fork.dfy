/** lib/fork.c: user-level copy-on-write fork built from the page syscalls, and the
    page-fault handler that gives a writer its private copy of a copy-on-write page. */
module Fork {
  import opened CLib
  import opened Mmu
  import opened Syscall

  /** How a library routine ends: it returns, or it panics and the environment is destroyed. */
  datatype Exit<T> = Return(value: T) | Panic(reason: string)

  /** The part of the user trap frame the handler reads: faulting address and error code. */
  datatype UTrapframe = UTrapframe(faultVa: nat, err: Word)

  const PFTEMP_VPN: nat := PFTEMP / PGSIZE
  /** The page of the user exception stack. */
  const UXSTACK_VPN: nat := (UXSTACKTOP - PGSIZE) / PGSIZE
  /** Fork duplicates the pages below this page number (those below USTACKTOP). */
  const STACK_TOP_VPN: nat := USTACKTOP / PGSIZE
  /** Permissions of a private, writable page. */
  const PERM_PRIVATE: Word := PTE_U | PTE_W | PTE_P
  /** Permissions of a copy-on-write page. */
  const PERM_COW: Word := PTE_COW | PTE_U | PTE_P
  /** Symbolic address of the assembly entry point `_pgfault_upcall`. */
  const PGFAULT_UPCALL: nat := 0x0080_0000

  const NOT_COW_WRITE := "pgfault: not a write or to a copy-on-write page"
  const PFTEMP_ALLOC_FAILED := "alloc to PFTEMP failed"
  const MAP_SHARED_FAILED := "map to child shared failed"
  const MAP_COW_FAILED := "map to child failed"
  const MAP_READONLY_FAILED := "map to child read-only failed"
  const UXSTACK_ALLOC_FAILED := "alloc for exception stack failed"
  const SFORK_UNIMPLEMENTED := "sfork not implemented"

  /** The library globals of the running environment. */
  class UserEnv {
    /** `thisenv`, identified by the id of the env whose table slot it points at. */
    var thisenv: EnvId
    /** Whether `pgfault` has been registered as the environment's page-fault handler. */
    var pgfaultHandlerSet: bool

    constructor (id: EnvId)
      ensures thisenv == id && !pgfaultHandlerSet
    {
      thisenv := id;
      pgfaultHandlerSet := false;
    }
  }

  // ---------------------------------------------------------------- pgfault

  /** `uvpt[pn]`'s permission bits in `e`; a page with no mapping reads as 0. */
  function UvptPerm(e: Env, pn: nat): Word {
    if pn in e.pgdir then e.pgdir[pn].perm else 0
  }

  /** The only fault the handler accepts: a write to a copy-on-write page. */
  predicate IsCowWriteFault(e: Env, utf: UTrapframe) {
    Has(utf.err, FEC_WR) && Has(UvptPerm(e, PageNumber(utf.faultVa)), PTE_COW)
  }

  /** `e` after its fault on page `vpn` was resolved with new frame `f`: the page maps
      `f` privately and writably, and the scratch page is unmapped (its page table stays). */
  function Resolved(e: Env, vpn: nat, f: Frame): Env {
    e.(pgdir := e.pgdir[vpn := Pte(f, PERM_PRIVATE)] - {PFTEMP_VPN},
       pdes := e.pdes + {PFTEMP_VPN / NPTENTRIES})
  }

  /** The three syscalls of the handler, composed: allocate at PFTEMP, map it at the
      faulting page, unmap PFTEMP. */
  lemma ResolvedSteps(e: Env, vpn: nat, f: Frame)
    requires vpn / NPTENTRIES in e.pdes
    ensures var e2 := Insert(Insert(e, PFTEMP_VPN, Pte(f, PERM_PRIVATE)), vpn, Pte(f, PERM_PRIVATE));
      e2.(pgdir := e2.pgdir - {PFTEMP_VPN}) == Resolved(e, vpn, f)
  {
    var e2 := Insert(Insert(e, PFTEMP_VPN, Pte(f, PERM_PRIVATE)), vpn, Pte(f, PERM_PRIVATE));
    assert e2.pgdir - {PFTEMP_VPN} == e.pgdir[vpn := Pte(f, PERM_PRIVATE)] - {PFTEMP_VPN};
    assert e2.pdes == e.pdes + {PFTEMP_VPN / NPTENTRIES};
  }

  /** pgfault: resolve a write fault on a copy-on-write page of the running environment
      by copying it into a fresh frame and mapping that frame in its place. */
  method Pgfault(k: Kernel, utf: UTrapframe) returns (out: Exit<()>, ghost f: Frame)
    requires k.Valid()
    modifies k
    ensures k.Valid()
    ensures k.curenv == old(k.curenv) && k.npages == old(k.npages) && k.nextEnvId == old(k.nextEnvId)
    ensures !IsCowWriteFault(old(k.envs[k.curenv]), utf) ==>
      out == Panic(NOT_COW_WRITE) && k.envs == old(k.envs) && k.mem == old(k.mem)
    ensures IsCowWriteFault(old(k.envs[k.curenv]), utf) && old(k.OutOfMemory()) ==>
      out == Panic(PFTEMP_ALLOC_FAILED) && k.envs == old(k.envs) && k.mem == old(k.mem)
    ensures IsCowWriteFault(old(k.envs[k.curenv]), utf) && !old(k.OutOfMemory()) ==>
      var cur := k.curenv;
      var vpn := PageNumber(utf.faultVa);
      && out == Return(())
      && f < k.npages && f !in old(k.UsedFrames())
      && k.envs == old(k.envs)[cur := Resolved(old(k.envs[cur]), vpn, f)]
      && k.mem == old(k.mem)[f := if vpn == PFTEMP_VPN then ZeroPage() else old(k.mem[k.envs[cur].pgdir[vpn].frame])]
  {
    var addr := utf.faultVa;
    var err := utf.err;
    if !Has(err, FEC_WR) || !Has(UvptPerm(k.envs[k.curenv], PageNumber(addr)), PTE_COW) {
      return Panic(NOT_COW_WRITE), 0;
    }
    ghost var cur := k.curenv;
    ghost var envs0 := k.envs;
    ghost var mem0 := k.mem;
    ghost var e0 := k.envs[cur];
    assert WellFormedEnv(e0, k.npages, k.mem.Keys);
    var vpn := PageNumber(addr);
    var pgAddr := RoundDown(addr);
    assert pgAddr / PGSIZE == vpn && pgAddr % PGSIZE == 0;
    assert vpn in e0.pgdir && vpn / NPTENTRIES in e0.pdes;
    ghost var old0 := e0.pgdir[vpn].frame;
    assert old0 in MappedFrames(envs0);

    var r := k.PageAlloc(0, PFTEMP, PERM_PRIVATE);
    if r < 0 {
      return Panic(PFTEMP_ALLOC_FAILED), 0;
    }
    f := k.envs[k.curenv].pgdir[PFTEMP_VPN].frame;
    ghost var e1 := Insert(e0, PFTEMP_VPN, Pte(f, PERM_PRIVATE));
    assert f != old0;
    assert k.envs == envs0[cur := e1] && k.mem == mem0[f := ZeroPage()];
    k.CopyPage(PFTEMP, pgAddr);
    assert k.mem == mem0[f := if vpn == PFTEMP_VPN then ZeroPage() else mem0[old0]];
    r := k.PageMap(0, PFTEMP, 0, pgAddr, PERM_PRIVATE);
    assert r == 0;
    ghost var e2 := Insert(e1, vpn, Pte(f, PERM_PRIVATE));
    assert k.envs == envs0[cur := e2];
    r := k.PageUnmap(0, PFTEMP);
    assert r == 0;
    assert k.envs == envs0[cur := e2.(pgdir := e2.pgdir - {PFTEMP_VPN})];
    ResolvedSteps(e0, vpn, f);
    out := Return(());
  }

  // ---------------------------------------------------------------- duppage

  /** The pages that become copy-on-write in both environments. */
  predicate NeedsCow(perm: Word) {
    !Has(perm, PTE_SHARE) && (Has(perm, PTE_W) || Has(perm, PTE_COW))
  }

  /** What duppage maps in the target for source entry `p`. */
  function ChildPte(p: Pte): Pte {
    if Has(p.perm, PTE_SHARE) then Pte(p.frame, p.perm & PTE_SYSCALL)
    else if Has(p.perm, PTE_W) || Has(p.perm, PTE_COW) then Pte(p.frame, PERM_COW)
    else Pte(p.frame, p.perm & PTE_SYSCALL)
  }

  /** What the source entry `p` becomes after duppage. */
  function ParentPte(p: Pte): Pte {
    if NeedsCow(p.perm) then Pte(p.frame, PERM_COW) else p
  }

  /** All environments after duppage of page `pn` from `cur` into `dst`. */
  function DupEnvs(envs: map<EnvId, Env>, cur: EnvId, dst: EnvId, pn: nat): map<EnvId, Env>
    requires cur in envs && dst in envs && pn in envs[cur].pgdir
  {
    var p := envs[cur].pgdir[pn];
    var mapped := envs[dst := Insert(envs[dst], pn, ChildPte(p))];
    if NeedsCow(p.perm) then mapped[cur := Insert(mapped[cur], pn, ParentPte(p))] else mapped
  }

  /** The panic duppage raises when its mapping into the target fails, by the branch taken. */
  function DupFailure(perm: Word): string {
    if Has(perm, PTE_SHARE) then MAP_SHARED_FAILED
    else if Has(perm, PTE_W) || Has(perm, PTE_COW) then MAP_COW_FAILED
    else MAP_READONLY_FAILED
  }

  /** duppage: map page `pn` of the running environment into `envid` at the same address. */
  method Duppage(k: Kernel, envid: EnvId, pn: nat) returns (out: Exit<int>)
    requires k.Valid()
    requires pn < NVPAGES
    modifies k
    ensures k.Valid()
    ensures k.curenv == old(k.curenv) && k.npages == old(k.npages) && k.nextEnvId == old(k.nextEnvId)
    ensures k.mem == old(k.mem)
    ensures out.Return? <==> old(k.MayAccess(envid)) && pn in old(k.envs[k.curenv].pgdir)
    ensures out.Return? ==> out.value == 0 && k.envs == old(DupEnvs(k.envs, k.curenv, k.Resolve(envid), pn))
    ensures out.Panic? ==> out.reason == DupFailure(old(UvptPerm(k.envs[k.curenv], pn))) && k.envs == old(k.envs)
  {
    assert WellFormedEnv(k.envs[k.curenv], k.npages, k.mem.Keys);
    var addr := pn * PGSIZE;
    assert addr / PGSIZE == pn && addr % PGSIZE == 0;
    var perm := UvptPerm(k.envs[k.curenv], pn);
    var r;
    if Has(perm, PTE_SHARE) {
      r := k.PageMap(0, addr, envid, addr, perm & PTE_SYSCALL);
      if r < 0 {
        return Panic(MAP_SHARED_FAILED);
      }
    } else if Has(perm, PTE_W) || Has(perm, PTE_COW) {
      r := k.PageMap(0, addr, envid, addr, PERM_COW);
      if r < 0 {
        return Panic(MAP_COW_FAILED);
      }
      // Re-mark our own entry copy-on-write, even if it already was.
      r := k.PageMap(0, addr, 0, addr, PERM_COW);
      assert r == 0;
    } else {
      r := k.PageMap(0, addr, envid, addr, perm & PTE_SYSCALL);
      if r < 0 {
        return Panic(MAP_READONLY_FAILED);
      }
    }
    return Return(0);
  }

  // ---------------------------------------------------------------- fork

  /** The pages below `b` that the source maps. */
  function DupedPages(p: Env, b: nat): set<nat> {
    set v | v in p.pgdir && v < b
  }

  /** The source environment after duppage of every mapped page below `b`. */
  function ParentAfter(p: Env, b: nat): Env {
    p.(pgdir := map v | v in p.pgdir :: if v < b then ParentPte(p.pgdir[v]) else p.pgdir[v])
  }

  /** The target environment `c` after duppage of every page below `b` that `p` maps. */
  function ChildAfter(p: Env, c: Env, b: nat): Env {
    c.(pgdir := map v | v in c.pgdir.Keys + DupedPages(p, b) ::
                  if v in DupedPages(p, b) then ChildPte(p.pgdir[v]) else c.pgdir[v],
       pdes := c.pdes + set v | v in DupedPages(p, b) :: v / NPTENTRIES)
  }

  lemma ForkStart(p: Env, c: Env)
    ensures ParentAfter(p, 0) == p && ChildAfter(p, c, 0) == c
  {
    assert ParentAfter(p, 0).pgdir == p.pgdir;
    assert DupedPages(p, 0) == {};
    assert ChildAfter(p, c, 0).pgdir == c.pgdir;
  }

  /** One more page of the scan: duppage of a mapped page `b` extends the child's prefix. */
  lemma ChildStep(p: Env, c: Env, b: nat)
    requires b in p.pgdir
    ensures Insert(ChildAfter(p, c, b), b, ChildPte(p.pgdir[b])) == ChildAfter(p, c, b + 1)
  {
    assert DupedPages(p, b + 1) == DupedPages(p, b) + {b};
    var c1 := Insert(ChildAfter(p, c, b), b, ChildPte(p.pgdir[b]));
    var c2 := ChildAfter(p, c, b + 1);
    assert c1.pgdir.Keys == c2.pgdir.Keys;
    assert forall v :: v in c1.pgdir ==> c1.pgdir[v] == c2.pgdir[v];
    assert c1.pgdir == c2.pgdir;
    assert c1.pdes == c2.pdes;
  }

  /** One more page of the scan: duppage of a mapped page `b` extends the parent's prefix. */
  lemma ParentStep(p: Env, b: nat)
    requires b in p.pgdir && b / NPTENTRIES in p.pdes
    ensures (if NeedsCow(p.pgdir[b].perm) then Insert(ParentAfter(p, b), b, ParentPte(p.pgdir[b]))
             else ParentAfter(p, b)) == ParentAfter(p, b + 1)
  {
    var p1 := ParentAfter(p, b + 1);
    if NeedsCow(p.pgdir[b].perm) {
      var q := Insert(ParentAfter(p, b), b, ParentPte(p.pgdir[b]));
      assert q.pgdir.Keys == p1.pgdir.Keys;
      assert q.pgdir == p1.pgdir;
      assert q.pdes == p.pdes;
    } else {
      assert ParentAfter(p, b).pgdir == p1.pgdir;
    }
  }

  /** One more page of the scan: an unmapped page `b` changes nothing. */
  lemma {:induction false} ForkSkip(p: Env, c: Env, b: nat)
    requires b !in p.pgdir
    ensures ChildAfter(p, c, b) == ChildAfter(p, c, b + 1)
    ensures ParentAfter(p, b) == ParentAfter(p, b + 1)
  {
    assert DupedPages(p, b + 1) == DupedPages(p, b);
    assert ParentAfter(p, b).pgdir == ParentAfter(p, b + 1).pgdir;
  }

  /** The test of fork's scan, `uvpd[PDX(addr)] & PTE_P && uvpt[PGNUM(addr)] & PTE_P`,
      holds exactly for the mapped pages. */
  lemma MappedIff(e: Env, b: nat)
    requires forall v :: v in e.pgdir ==> v / NPTENTRIES in e.pdes && PermOk(e.pgdir[v].perm)
    ensures (b / NPTENTRIES in e.pdes && Has(UvptPerm(e, b), PTE_P)) <==> b in e.pgdir
  {
  }

  /** duppage of page `b` in the middle of the scan takes it one page further. */
  lemma DupStep(envs0: map<EnvId, Env>, cur: EnvId, child: EnvId, p0: Env, c0: Env, b: nat)
    requires cur != child && cur in envs0 && child in envs0
    requires b in p0.pgdir && b / NPTENTRIES in p0.pdes
    ensures var m := envs0[cur := ParentAfter(p0, b)][child := ChildAfter(p0, c0, b)];
      DupEnvs(m, cur, child, b) == envs0[cur := ParentAfter(p0, b + 1)][child := ChildAfter(p0, c0, b + 1)]
  {
    assert ParentAfter(p0, b).pgdir[b] == p0.pgdir[b];
    ChildStep(p0, c0, b);
    ParentStep(p0, b);
  }

  lemma PageAddress(b: nat)
    ensures PageNumber(b * PGSIZE) == b && DirIndex(b * PGSIZE) == b / NPTENTRIES
    ensures (b * PGSIZE) % PGSIZE == 0
  {
  }

  /** fork's test for page `pn`: its page table is present and its entry is present. */
  predicate Present(e: Env, pn: nat) {
    pn / NPTENTRIES in e.pdes && Has(UvptPerm(e, pn), PTE_P)
  }

  /** All environments after the scan of fork over the pages below `b`: duppage into
      `child` of every page of `cur` that passes the test, in increasing order. */
  function Scan(envs: map<EnvId, Env>, cur: EnvId, child: EnvId, b: nat): (m: map<EnvId, Env>)
    requires cur in envs && child in envs
    ensures m.Keys == envs.Keys
  {
    if b == 0 then envs
    else
      var m := Scan(envs, cur, child, b - 1);
      if Present(m[cur], b - 1) then DupEnvs(m, cur, child, b - 1) else m
  }

  /** The scan in closed form: below `b` the child has every page the parent maps,
      classified by duppage, and the parent's own copy-on-write candidates are re-marked. */
  lemma {:induction false} ScanClosedForm(envs: map<EnvId, Env>, cur: EnvId, child: EnvId, b: nat)
    requires cur in envs && child in envs && cur != child
    requires forall v :: v in envs[cur].pgdir ==> v / NPTENTRIES in envs[cur].pdes && PermOk(envs[cur].pgdir[v].perm)
    ensures Scan(envs, cur, child, b) ==
      envs[cur := ParentAfter(envs[cur], b)][child := ChildAfter(envs[cur], envs[child], b)]
  {
    var p0, c0 := envs[cur], envs[child];
    if b == 0 {
      ForkStart(p0, c0);
      assert envs[cur := p0][child := c0] == envs;
    } else {
      ScanClosedForm(envs, cur, child, b - 1);
      var m := Scan(envs, cur, child, b - 1);
      MappedIff(p0, b - 1);
      assert UvptPerm(m[cur], b - 1) == UvptPerm(p0, b - 1) && m[cur].pdes == p0.pdes;
      if Present(m[cur], b - 1) {
        DupStep(envs, cur, child, p0, c0, b - 1);
      } else {
        ForkSkip(p0, c0, b - 1);
      }
    }
  }

  /** The scan of fork: duppage of every present page below USTACKTOP into `child`. */
  method CopyAddressSpace(k: Kernel, child: EnvId)
    requires k.Valid()
    requires child in k.envs && child != k.curenv && k.envs[child].parentId == k.curenv
    modifies k
    ensures k.Valid()
    ensures k.curenv == old(k.curenv) && k.npages == old(k.npages) && k.nextEnvId == old(k.nextEnvId)
    ensures k.mem == old(k.mem)
    ensures k.envs == Scan(old(k.envs), k.curenv, child, STACK_TOP_VPN)
  {
    ghost var envs0: map<EnvId, Env> := k.envs;
    ghost var cur: EnvId := k.curenv;
    ghost var c0 := k.envs[child];
    var addr: nat := 0;
    ghost var b: nat := 0;
    assert USTACKTOP == STACK_TOP_VPN * PGSIZE;
    while addr < USTACKTOP
      invariant addr == b * PGSIZE && b <= STACK_TOP_VPN
      invariant k.Valid()
      invariant k.curenv == cur && k.npages == old(k.npages) && k.nextEnvId == old(k.nextEnvId)
      invariant k.mem == old(k.mem)
      invariant k.envs == Scan(envs0, cur, child, b)
      invariant child in k.envs && k.envs[child].parentId == cur
      decreases USTACKTOP - addr
    {
      PageAddress(b);
      if DirIndex(addr) in k.envs[k.curenv].pdes && Has(UvptPerm(k.envs[k.curenv], PageNumber(addr)), PTE_P) {
        var r := Duppage(k, child, PageNumber(addr));
        assert r.Return?;
      }
      addr := addr + PGSIZE;
      b := b + 1;
    }
  }

  /** fork: `exo` is what sys_exofork returned in this execution context (the call
      returns in both parent and child): negative on failure, 0 in the child, the
      child's id in the parent. */
  method Fork(k: Kernel, u: UserEnv, exo: int) returns (out: Exit<int>, ghost uxFrame: Frame)
    requires k.Valid()
    requires exo > 0 ==> exo in k.envs && exo != k.curenv && k.envs[exo].parentId == k.curenv
    modifies k, u
    ensures k.Valid() && u.pgfaultHandlerSet
    ensures k.curenv == old(k.curenv) && k.npages == old(k.npages) && k.nextEnvId == old(k.nextEnvId)
    ensures exo < 0 ==>
      out == Return(exo) && k.envs == old(k.envs) && k.mem == old(k.mem) && u.thisenv == old(u.thisenv)
    ensures exo == 0 ==>
      out == Return(0) && u.thisenv == k.curenv && k.envs == old(k.envs) && k.mem == old(k.mem)
    ensures exo > 0 ==>
      var scanned := Scan(old(k.envs), k.curenv, exo, STACK_TOP_VPN);
      && u.thisenv == old(u.thisenv)
      && if out.Return? then
           && out.value == exo
           && k.envs == scanned[exo := Insert(scanned[exo], UXSTACK_VPN, Pte(uxFrame, PERM_PRIVATE))
                                       .(status := EnvRunnable, upcall := Some(PGFAULT_UPCALL))]
           && k.mem == old(k.mem)[uxFrame := ZeroPage()]
           && (forall id, v :: id in k.envs && v in k.envs[id].pgdir && !(id == exo && v == UXSTACK_VPN) ==>
                 k.envs[id].pgdir[v].frame != uxFrame)
         else
           && out == Panic(UXSTACK_ALLOC_FAILED)
           && k.envs == scanned && k.mem == old(k.mem)
    ensures exo > 0 ==>
      (out.Panic? <==>
         forall f :: 0 <= f < k.npages ==> f in MappedFrames(Scan(old(k.envs), k.curenv, exo, STACK_TOP_VPN)))
    ensures exo > 0 ==>
      var p0, c0 := old(k.envs[k.curenv]), old(k.envs[exo]);
      && k.envs[k.curenv] == ParentAfter(p0, STACK_TOP_VPN)
      && exo in k.envs
      && k.envs[exo].pgdir ==
           if out.Return? then ChildAfter(p0, c0, STACK_TOP_VPN).pgdir[UXSTACK_VPN := Pte(uxFrame, PERM_PRIVATE)]
           else ChildAfter(p0, c0, STACK_TOP_VPN).pgdir
  {
    u.pgfaultHandlerSet := true;
    if exo < 0 {
      return Return(exo), 0;
    }
    if exo == 0 {
      u.thisenv := k.GetEnvId();
      return Return(0), 0;
    }
    var child: EnvId := exo;
    ghost var envs0 := k.envs;
    assert WellFormedEnv(envs0[k.curenv], k.npages, k.mem.Keys);
    CopyAddressSpace(k, child);
    ghost var envs1 := k.envs;
    ScanClosedForm(envs0, k.curenv, child, STACK_TOP_VPN);
    assert k.MayAccess(child);
    assert UserVa(UXSTACKTOP - PGSIZE) && PermOk(PTE_W | PTE_U | PTE_P);
    ghost var oom := k.OutOfMemory();
    assert k.UsedFrames() == MappedFrames(envs1);
    var r := k.PageAlloc(child, UXSTACKTOP - PGSIZE, PTE_W | PTE_U | PTE_P);
    if r < 0 {
      assert r == -E_NO_MEM;
      assert oom;
      return Panic(UXSTACK_ALLOC_FAILED), 0;
    }
    assert !oom;
    uxFrame := k.envs[child].pgdir[UXSTACK_VPN].frame;
    ghost var c2 := Insert(envs1[child], UXSTACK_VPN, Pte(uxFrame, PERM_PRIVATE));
    assert k.envs == envs1[child := c2];
    FreshFrameUnaliased(envs1, child, UXSTACK_VPN, uxFrame, PERM_PRIVATE);
    r := k.EnvSetPgfaultUpcall(child, PGFAULT_UPCALL);
    assert r == 0;
    r := k.EnvSetStatus(child, EnvRunnable);
    assert r == 0;
    assert k.envs == envs1[child := c2.(upcall := Some(PGFAULT_UPCALL)).(status := EnvRunnable)];
    return Return(child), uxFrame;
  }

  // ---------------------------------------------------------------- what fork leaves behind

  /** duppage's entries for a well-formed source entry: the child always gets the same
      frame; a page that is neither shared nor copy-on-write-worthy is copied verbatim;
      a writable or copy-on-write page becomes copy-on-write on both sides; and no
      page that is not shared stays writable on either side. */
  lemma DupEntries(p: Pte)
    requires PermOk(p.perm)
    ensures ChildPte(p).frame == ParentPte(p).frame == p.frame
    ensures PermOk(ChildPte(p).perm) && PermOk(ParentPte(p).perm)
    ensures !NeedsCow(p.perm) ==> ChildPte(p) == ParentPte(p) == p
    ensures NeedsCow(p.perm) ==> ChildPte(p) == ParentPte(p) && Has(ChildPte(p).perm, PTE_COW)
    ensures !Has(p.perm, PTE_SHARE) ==> !Has(ChildPte(p).perm, PTE_W) && !Has(ParentPte(p).perm, PTE_W)
    ensures Has(p.perm, PTE_SHARE) ==> ChildPte(p) == ParentPte(p) == p
  {
    assert p.perm & PTE_SYSCALL == p.perm;
  }

  /** The address spaces fork leaves behind, for a parent `p` whose entries are all
      well-formed and a child that started as `c`: both sides map the same frame at
      every duplicated page, shared pages are mapped verbatim, no page that is not
      shared is writable on either side, and nothing at or above USTACKTOP changes. */
  lemma {:induction false} ForkSharing(p: Env, c: Env)
    requires forall v :: v in p.pgdir ==> PermOk(p.pgdir[v].perm)
    ensures var parent, child := ParentAfter(p, STACK_TOP_VPN), ChildAfter(p, c, STACK_TOP_VPN);
      && parent.pgdir.Keys == p.pgdir.Keys && parent.pdes == p.pdes
      && child.pgdir.Keys == c.pgdir.Keys + DupedPages(p, STACK_TOP_VPN)
      && (forall v :: v in DupedPages(p, STACK_TOP_VPN) ==>
            && child.pgdir[v].frame == parent.pgdir[v].frame == p.pgdir[v].frame
            && (Has(p.pgdir[v].perm, PTE_SHARE) ==> child.pgdir[v] == parent.pgdir[v] == p.pgdir[v])
            && (!Has(p.pgdir[v].perm, PTE_SHARE) ==>
                  !Has(child.pgdir[v].perm, PTE_W) && !Has(parent.pgdir[v].perm, PTE_W))
            && (NeedsCow(p.pgdir[v].perm) ==> child.pgdir[v] == parent.pgdir[v] == Pte(p.pgdir[v].frame, PERM_COW)))
      && (forall v :: v in p.pgdir && v >= STACK_TOP_VPN ==> parent.pgdir[v] == p.pgdir[v])
      && (forall v :: v in c.pgdir && v !in DupedPages(p, STACK_TOP_VPN) ==> child.pgdir[v] == c.pgdir[v])
  {
    forall v | v in DupedPages(p, STACK_TOP_VPN) {
      DupEntries(p.pgdir[v]);
    }
  }

  /** What the fault handler leaves behind in the faulting environment: the faulting
      page maps the new frame privately and writably and no longer copy-on-write,
      PFTEMP is unmapped while its page-table slot stays, and every other mapping is as
    it was. */
  lemma ResolvedSeparates(e: Env, vpn: nat, f: Frame)
    requires vpn in e.pgdir && vpn != PFTEMP_VPN
    ensures var e1 := Resolved(e, vpn, f);
      && e1.pgdir.Keys == e.pgdir.Keys - {PFTEMP_VPN}
      && e1.pgdir[vpn] == Pte(f, PERM_PRIVATE)
      && Has(e1.pgdir[vpn].perm, PTE_W) && !Has(e1.pgdir[vpn].perm, PTE_COW)
      && (forall v :: v in e.pgdir && v != vpn && v != PFTEMP_VPN ==> e1.pgdir[v] == e.pgdir[v])
      && e1.pdes == e.pdes + {PFTEMP_VPN / NPTENTRIES}
      && e1.parentId == e.parentId && e1.status == e.status && e1.upcall == e.upcall
  {
  }

  /** sfork, the shared-memory fork, is not implemented: it always panics. */
  function SFork(): (out: Exit<int>)
    ensures out.Panic?
  {
    Panic(SFORK_UNIMPLEMENTED)
  }
}
