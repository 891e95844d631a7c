/** The kernel as the user-level fork library sees it: every environment's page table
    (read through `uvpt`/`uvpd`), physical frame contents, and the primitive system
    calls that change them. Only each call's interface is modelled: its error returns
    and the state it leaves behind. */
module Syscall {
  import opened CLib
  import opened Mmu

  /** Environment ids; 0 is never an environment and means "the caller" in a syscall. */
  type EnvId = nat
  /** Physical page numbers. */
  type Frame = nat
  type Page = seq<bv8>

  const E_BAD_ENV: int := 2
  const E_INVAL: int := 3
  const E_NO_MEM: int := 4
  const E_NO_FREE_ENV: int := 5
  const NENV: nat := 1024

  datatype Pte = Pte(frame: Frame, perm: Word)

  datatype EnvStatus = EnvFree | EnvDying | EnvRunnable | EnvRunning | EnvNotRunnable

  /** One environment: who created it, its user page table (virtual page number to
      entry) and the page-directory slots that have a page table, its run state and
      its page-fault upcall entry point. */
  datatype Env = Env(parentId: EnvId, pgdir: map<nat, Pte>, pdes: set<nat>,
                     status: EnvStatus, upcall: Option<nat>)

  function ZeroPage(): Page {
    seq(PGSIZE, _ => 0)
  }

  /** Page table of `e` after `pte` is installed at page `vpn`; the page table that
      covers `vpn` is created if it did not exist. */
  function Insert(e: Env, vpn: nat, pte: Pte): Env {
    e.(pgdir := e.pgdir[vpn := pte], pdes := e.pdes + {vpn / NPTENTRIES})
  }

  /** A page-aligned address below UTOP. */
  predicate UserVa(va: nat) {
    va < UTOP && va % PGSIZE == 0
  }

  /** Permissions a user may request: at least `PTE_U|PTE_P`, nothing outside `PTE_SYSCALL`. */
  predicate PermOk(perm: Word) {
    perm & (PTE_U | PTE_P) == PTE_U | PTE_P && perm & !PTE_SYSCALL == 0
  }

  /** What the kernel keeps true of every user page table. */
  ghost predicate WellFormedEnv(e: Env, npages: nat, frames: set<Frame>) {
    forall v :: v in e.pgdir ==>
      && v < UTOP / PGSIZE
      && PermOk(e.pgdir[v].perm)
      && e.pgdir[v].frame < npages
      && e.pgdir[v].frame in frames
      && v / NPTENTRIES in e.pdes
  }

  /** Every environment of `envs` is well-formed. A proof that needs the facts about one
      environment asks for them by naming `WellFormedEnv` of it. */
  ghost predicate EnvsWellFormed(envs: map<EnvId, Env>, npages: nat, frames: set<Frame>) {
    forall id {:trigger WellFormedEnv(envs[id], npages, frames)} :: id in envs ==> WellFormedEnv(envs[id], npages, frames)
  }

  /** Replacing one environment by a well-formed one, and adding frames, keeps all well-formed. */
  lemma EnvsWellFormedUpdate(envs: map<EnvId, Env>, npages: nat, frames: set<Frame>, frames': set<Frame>,
                             id: EnvId, e: Env)
    requires EnvsWellFormed(envs, npages, frames) && frames <= frames'
    requires WellFormedEnv(e, npages, frames')
    ensures EnvsWellFormed(envs[id := e], npages, frames')
  {
    var m := envs[id := e];
    forall i | i in m
      ensures WellFormedEnv(m[i], npages, frames')
    {
      if i != id {
        assert WellFormedEnv(envs[i], npages, frames);
      }
    }
  }

  /** The frames some environment of `envs` maps. */
  function MappedFrames(envs: map<EnvId, Env>): set<Frame> {
    set id, v | id in envs && v in envs[id].pgdir :: envs[id].pgdir[v].frame
  }

  /** A frame no environment mapped, once installed at one page, is mapped nowhere else. */
  lemma FreshFrameUnaliased(envs: map<EnvId, Env>, id: EnvId, vpn: nat, f: Frame, perm: Word)
    requires id in envs && f !in MappedFrames(envs)
    ensures var m := envs[id := Insert(envs[id], vpn, Pte(f, perm))];
      forall i, v :: i in m && v in m[i].pgdir && !(i == id && v == vpn) ==> m[i].pgdir[v].frame != f
  {
    var m := envs[id := Insert(envs[id], vpn, Pte(f, perm))];
    forall i, v | i in m && v in m[i].pgdir && !(i == id && v == vpn)
      ensures m[i].pgdir[v].frame != f
    {
      assert m[i].pgdir[v] == envs[i].pgdir[v];
      assert envs[i].pgdir[v].frame in MappedFrames(envs);
    }
  }

  class Kernel {
    var envs: map<EnvId, Env>
    /** Contents of the physical frames. */
    var mem: map<Frame, Page>
    /** Physical frames are 0 .. npages-1. */
    var npages: nat
    /** The environment that is running and issuing the syscalls. */
    var curenv: EnvId
    /** Source of new environment ids. */
    var nextEnvId: EnvId

    ghost predicate Valid()
      reads this
    {
      && curenv in envs
      && 0 !in envs
      && (forall id :: id in envs ==> id < nextEnvId)
      && EnvsWellFormed(envs, npages, mem.Keys)
      // the running environment's frames have contents, spelled out for reading them
      && (forall v :: v in envs[curenv].pgdir ==> envs[curenv].pgdir[v].frame in mem)
    }

    /** A machine with one running environment `first` and an empty address space. */
    constructor (npages: nat, first: EnvId)
      requires first > 0
      ensures Valid()
      ensures this.npages == npages && curenv == first && nextEnvId == first + 1 && mem == map[]
      ensures envs == map[first := Env(first, map[], {}, EnvRunning, None)]
    {
      envs := map[first := Env(first, map[], {}, EnvRunning, None)];
      mem := map[];
      this.npages := npages;
      curenv := first;
      nextEnvId := first + 1;
    }

    function Resolve(envid: EnvId): EnvId
      reads this
    {
      if envid == 0 then curenv else envid
    }

    /** envid2env with permission checking: the env exists and is the caller or the caller's child. */
    predicate MayAccess(envid: EnvId)
      reads this
    {
      var id := Resolve(envid);
      id in envs && (id == curenv || envs[id].parentId == curenv)
    }

    /** Frames mapped by some environment; every other frame is free. */
    function UsedFrames(): set<Frame>
      reads this
    {
      MappedFrames(envs)
    }

    predicate OutOfMemory()
      reads this
    {
      forall f :: 0 <= f < npages ==> f in UsedFrames()
    }

    /** The arguments of `sys_page_map` that the kernel rejects with -E_INVAL when absent. */
    predicate MapArgsOk(srcenvid: EnvId, srcva: nat, dstva: nat, perm: Word)
      reads this
      requires MayAccess(srcenvid)
    {
      var src := envs[Resolve(srcenvid)];
      && UserVa(srcva) && UserVa(dstva)
      && srcva / PGSIZE in src.pgdir
      && PermOk(perm)
      && (Has(perm, PTE_W) ==> Has(src.pgdir[srcva / PGSIZE].perm, PTE_W))
    }

    /** sys_getenvid. */
    function GetEnvId(): EnvId
      reads this
    {
      curenv
    }

    /** sys_page_alloc: back `va` in `envid` with a fresh zeroed frame mapped with `perm`,
        replacing whatever was mapped there. */
    method PageAlloc(envid: EnvId, va: nat, perm: Word) returns (r: int)
      requires Valid()
      modifies this
      ensures Valid()
      ensures curenv == old(curenv) && npages == old(npages) && nextEnvId == old(nextEnvId)
      ensures r == -E_BAD_ENV <==> !old(MayAccess(envid))
      ensures r == -E_INVAL <==> old(MayAccess(envid)) && !(UserVa(va) && PermOk(perm))
      ensures r == -E_NO_MEM <==> old(MayAccess(envid)) && UserVa(va) && PermOk(perm) && old(OutOfMemory())
      ensures r == 0 || r == -E_BAD_ENV || r == -E_INVAL || r == -E_NO_MEM
      ensures r != 0 ==> envs == old(envs) && mem == old(mem)
      ensures r == 0 ==>
        var id := old(Resolve(envid));
        var vpn := va / PGSIZE;
        && id in envs && vpn in envs[id].pgdir
        && var f := envs[id].pgdir[vpn].frame;
        && f < npages && f !in old(UsedFrames())
        && envs == old(envs)[id := Insert(old(envs)[id], vpn, Pte(f, perm))]
        && mem == old(mem)[f := ZeroPage()]
    {
      if !MayAccess(envid) {
        return -E_BAD_ENV;
      }
      if !UserVa(va) || !PermOk(perm) {
        return -E_INVAL;
      }
      var id := Resolve(envid);
      if f :| 0 <= f < npages && f !in UsedFrames() {
        assert WellFormedEnv(envs[id], npages, mem.Keys);
        assert mem[f := ZeroPage()].Keys == mem.Keys + {f};
        EnvsWellFormedUpdate(envs, npages, mem.Keys, mem.Keys + {f}, id, Insert(envs[id], va / PGSIZE, Pte(f, perm)));
        mem := mem[f := ZeroPage()];
        envs := envs[id := Insert(envs[id], va / PGSIZE, Pte(f, perm))];
        r := 0;
      } else {
        r := -E_NO_MEM;
      }
    }

    /** sys_page_map: map the frame that `srcva` maps in `srcenvid` at `dstva` in
        `dstenvid` with `perm`, replacing whatever was mapped there. */
    method PageMap(srcenvid: EnvId, srcva: nat, dstenvid: EnvId, dstva: nat, perm: Word) returns (r: int)
      requires Valid()
      modifies this
      ensures Valid()
      ensures curenv == old(curenv) && npages == old(npages) && nextEnvId == old(nextEnvId) && mem == old(mem)
      ensures r == -E_BAD_ENV <==> !old(MayAccess(srcenvid)) || !old(MayAccess(dstenvid))
      ensures r == 0 <==> old(MayAccess(srcenvid) && MayAccess(dstenvid) && MapArgsOk(srcenvid, srcva, dstva, perm))
      ensures r == 0 || r == -E_BAD_ENV || r == -E_INVAL
      ensures r != 0 ==> envs == old(envs)
      ensures r == 0 ==>
        var s := old(Resolve(srcenvid));
        var d := old(Resolve(dstenvid));
        envs == old(envs[d := Insert(envs[d], dstva / PGSIZE, Pte(envs[s].pgdir[srcva / PGSIZE].frame, perm))])
    {
      if !MayAccess(srcenvid) || !MayAccess(dstenvid) {
        return -E_BAD_ENV;
      }
      if !MapArgsOk(srcenvid, srcva, dstva, perm) {
        return -E_INVAL;
      }
      var s, d := Resolve(srcenvid), Resolve(dstenvid);
      assert WellFormedEnv(envs[s], npages, mem.Keys) && WellFormedEnv(envs[d], npages, mem.Keys);
      EnvsWellFormedUpdate(envs, npages, mem.Keys, mem.Keys, d,
                           Insert(envs[d], dstva / PGSIZE, Pte(envs[s].pgdir[srcva / PGSIZE].frame, perm)));
      envs := envs[d := Insert(envs[d], dstva / PGSIZE, Pte(envs[s].pgdir[srcva / PGSIZE].frame, perm))];
      r := 0;
    }

    /** sys_page_unmap: remove the mapping at `va`, if there is one. */
    method PageUnmap(envid: EnvId, va: nat) returns (r: int)
      requires Valid()
      modifies this
      ensures Valid()
      ensures curenv == old(curenv) && npages == old(npages) && nextEnvId == old(nextEnvId) && mem == old(mem)
      ensures r == -E_BAD_ENV <==> !old(MayAccess(envid))
      ensures r == -E_INVAL <==> old(MayAccess(envid)) && !UserVa(va)
      ensures r == 0 || r == -E_BAD_ENV || r == -E_INVAL
      ensures r != 0 ==> envs == old(envs)
      ensures r == 0 ==>
        var id := old(Resolve(envid));
        envs == old(envs[id := envs[id].(pgdir := envs[id].pgdir - {va / PGSIZE})])
    {
      if !MayAccess(envid) {
        return -E_BAD_ENV;
      }
      if !UserVa(va) {
        return -E_INVAL;
      }
      var id := Resolve(envid);
      assert WellFormedEnv(envs[id], npages, mem.Keys);
      EnvsWellFormedUpdate(envs, npages, mem.Keys, mem.Keys, id, envs[id].(pgdir := envs[id].pgdir - {va / PGSIZE}));
      envs := envs[id := envs[id].(pgdir := envs[id].pgdir - {va / PGSIZE})];
      r := 0;
    }

    /** sys_env_set_status: only runnable and not-runnable may be requested. */
    method EnvSetStatus(envid: EnvId, status: EnvStatus) returns (r: int)
      requires Valid()
      modifies this
      ensures Valid()
      ensures curenv == old(curenv) && npages == old(npages) && nextEnvId == old(nextEnvId) && mem == old(mem)
      ensures r == -E_INVAL <==> status != EnvRunnable && status != EnvNotRunnable
      ensures r == -E_BAD_ENV <==> (status == EnvRunnable || status == EnvNotRunnable) && !old(MayAccess(envid))
      ensures r == 0 || r == -E_BAD_ENV || r == -E_INVAL
      ensures r != 0 ==> envs == old(envs)
      ensures r == 0 ==>
        var id := old(Resolve(envid));
        envs == old(envs[id := envs[id].(status := status)])
    {
      if status != EnvRunnable && status != EnvNotRunnable {
        return -E_INVAL;
      }
      if !MayAccess(envid) {
        return -E_BAD_ENV;
      }
      var id := Resolve(envid);
      assert WellFormedEnv(envs[id], npages, mem.Keys);
      EnvsWellFormedUpdate(envs, npages, mem.Keys, mem.Keys, id, envs[id].(status := status));
      envs := envs[id := envs[id].(status := status)];
      r := 0;
    }

    /** sys_env_set_pgfault_upcall: record the entry point for page faults in `envid`. */
    method EnvSetPgfaultUpcall(envid: EnvId, entry: nat) returns (r: int)
      requires Valid()
      modifies this
      ensures Valid()
      ensures curenv == old(curenv) && npages == old(npages) && nextEnvId == old(nextEnvId) && mem == old(mem)
      ensures r == -E_BAD_ENV <==> !old(MayAccess(envid))
      ensures r == 0 || r == -E_BAD_ENV
      ensures r != 0 ==> envs == old(envs)
      ensures r == 0 ==>
        var id := old(Resolve(envid));
        envs == old(envs[id := envs[id].(upcall := Some(entry))])
    {
      if !MayAccess(envid) {
        return -E_BAD_ENV;
      }
      var id := Resolve(envid);
      assert WellFormedEnv(envs[id], npages, mem.Keys);
      EnvsWellFormedUpdate(envs, npages, mem.Keys, mem.Keys, id, envs[id].(upcall := Some(entry)));
      envs := envs[id := envs[id].(upcall := Some(entry))];
      r := 0;
    }

    /** sys_exofork as seen by the parent: a new, not yet runnable child of the caller
        with an empty user address space and no upcall, or -E_NO_FREE_ENV. */
    method Exofork() returns (r: int)
      requires Valid()
      modifies this
      ensures Valid()
      ensures curenv == old(curenv) && npages == old(npages) && mem == old(mem)
      ensures |old(envs)| >= NENV ==> r == -E_NO_FREE_ENV && envs == old(envs) && nextEnvId == old(nextEnvId)
      ensures |old(envs)| < NENV ==>
        && r > 0 && r !in old(envs) && r != curenv
        && envs == old(envs)[r := Env(curenv, map[], {}, EnvNotRunnable, None)]
    {
      if |envs| >= NENV {
        return -E_NO_FREE_ENV;
      }
      r := nextEnvId;
      EnvsWellFormedUpdate(envs, npages, mem.Keys, mem.Keys, r, Env(curenv, map[], {}, EnvNotRunnable, None));
      envs := envs[r := Env(curenv, map[], {}, EnvNotRunnable, None)];
      nextEnvId := nextEnvId + 1;
    }

    /** The user-mode copy of one page to another in the running environment (`memmove`
        of PGSIZE bytes); both pages are mapped and the destination is writable, since
        otherwise the copy itself would fault. */
    method CopyPage(dstva: nat, srcva: nat)
      requires Valid()
      requires dstva / PGSIZE in envs[curenv].pgdir && srcva / PGSIZE in envs[curenv].pgdir
      requires Has(envs[curenv].pgdir[dstva / PGSIZE].perm, PTE_W)
      modifies this
      ensures Valid()
      ensures envs == old(envs) && curenv == old(curenv) && npages == old(npages) && nextEnvId == old(nextEnvId)
      ensures
        var pg := envs[curenv].pgdir;
        mem == old(mem)[pg[dstva / PGSIZE].frame := old(mem)[pg[srcva / PGSIZE].frame]]
    {
      var pg := envs[curenv].pgdir;
      assert WellFormedEnv(envs[curenv], npages, mem.Keys);
      assert mem[pg[dstva / PGSIZE].frame := mem[pg[srcva / PGSIZE].frame]].Keys == mem.Keys;
      mem := mem[pg[dstva / PGSIZE].frame := mem[pg[srcva / PGSIZE].frame]];
    }
  }
}
