/** kcr_init and kcr_exit: what they acquire, build and release, for every outcome of
    the allocators. */
module Lifecycle {
  import S = System
  import opened Cache

  // A global pointer: NULL, or a block the kernel allocators have handed out.
  datatype Pointer = Null | Block(id: nat)

  function Blocks(p: Pointer): set<nat> {
    match p
    case Null => {}
    case Block(id) => {id}
  }

  // Which allocations succeed: alloc_percpu, kcr_alloc_region, kcalloc.
  datatype Outcomes = Outcomes(percpu: bool, region: bool, tables: bool)

  class KcrModule {
    const g: S.Config
    var kcrEnable: bool
    var caches: Pointer
    var l3Tables: Pointer
    var kcrRegion: Pointer
    var numSockets: nat
    var cache: KcrCache?   // what the blocks behind caches and l3Tables hold
    var live: set<nat>     // the blocks allocated and not yet freed
    var nextBlock: nat

    constructor (g: S.Config, enable: bool)
      ensures this.g == g && kcrEnable == enable && Unloaded() && live == {} && Sound()
    {
      this.g, kcrEnable := g, enable;
      caches, l3Tables, kcrRegion, numSockets, cache := Null, Null, Null, 0, null;
      live, nextBlock := {}, 0;
    }

    ghost predicate Unloaded()
      reads this
    {
      caches == Null && l3Tables == Null && kcrRegion == Null
    }

    // Every non-NULL global points at a live block of its own.
    ghost predicate Sound()
      reads this
    {
      && (forall b :: b in live ==> b < nextBlock)
      && Blocks(caches) + Blocks(l3Tables) + Blocks(kcrRegion) <= live
      && Blocks(caches) !! Blocks(l3Tables) !! Blocks(kcrRegion)
    }

    method Acquire(ok: bool) returns (p: Pointer)
      requires forall b :: b in live ==> b < nextBlock
      modifies this`live, this`nextBlock
      ensures forall b :: b in live ==> b < nextBlock
      ensures if ok then
                p == Block(old(nextBlock)) && live == old(live) + {old(nextBlock)} && nextBlock == old(nextBlock) + 1
              else p == Null && live == old(live) && nextBlock == old(nextBlock)
    {
      p := Null;
      if ok {
        p := Block(nextBlock);
        live := live + {nextBlock};
        nextBlock := nextBlock + 1;
      }
    }

    // A free must hit a live block.
    method Release(p: Pointer)
      requires Blocks(p) <= live
      modifies this`live
      ensures live == old(live) - Blocks(p)
    {
      live := live - Blocks(p);
    }

    // err_free_caches, and err_disable behind it
    method UndoCaches()
      requires Blocks(caches) <= live
      modifies this`live, this`caches, this`kcrEnable
      ensures live == old(live) - Blocks(old(caches)) && caches == Null && !kcrEnable
    {
      Release(caches);
      caches := Null;
      kcrEnable := false;
    }

    // err_free_region, and the two labels behind it
    method UndoRegion()
      requires Blocks(kcrRegion) <= live && Blocks(caches) <= live - Blocks(kcrRegion)
      modifies this`live, this`kcrRegion, this`caches, this`kcrEnable
      ensures live == old(live) - Blocks(old(kcrRegion)) - Blocks(old(caches))
      ensures kcrRegion == Null && caches == Null && !kcrEnable
    {
      Release(kcrRegion);
      kcrRegion := Null;
      UndoCaches();
    }

    /** With KCR disabled nothing happens. Otherwise it succeeds exactly when the three
        allocations do, and then the cache is the empty one of every CPU and socket; a
        failure releases exactly what had been acquired and leaves KCR disabled. */
    method KcrInit(o: Outcomes) returns (ret: int)
      requires Unloaded() && Sound() && S.ValidConfig(g)
      modifies this
      ensures Sound()
      ensures !old(kcrEnable) ==> ret == 0 && !kcrEnable && Unloaded() && live == old(live)
      ensures old(kcrEnable) && o.percpu && o.region && o.tables ==>
                && ret == 0 && kcrEnable && numSockets == g.sockets
                && caches != Null && l3Tables != Null && kcrRegion != Null
                && live == old(live) + Blocks(caches) + Blocks(l3Tables) + Blocks(kcrRegion)
                && old(live) !! Blocks(caches) + Blocks(l3Tables) + Blocks(kcrRegion)
                && cache != null && fresh(cache) && cache.Valid() && cache.g == g && cache.State() == S.Init(g)
      ensures old(kcrEnable) && !(o.percpu && o.region && o.tables) ==>
                ret == -S.ENOMEM && !kcrEnable && Unloaded() && live == old(live)
    {
      if !kcrEnable {
        return 0;
      }
      caches := Acquire(o.percpu);
      if caches == Null {
        kcrEnable := false;
        return -S.ENOMEM;
      }
      kcrRegion := Acquire(o.region);
      if kcrRegion == Null {
        UndoCaches();
        return -S.ENOMEM;
      }
      numSockets := g.sockets;
      l3Tables := Acquire(o.tables);
      if l3Tables == Null {
        UndoRegion();
        return -S.ENOMEM;
      }
      cache := new KcrCache(g);
      ret := 0;
    }

    /** Whatever kcr_init did, every global is NULL afterwards and its block released. */
    method KcrExit()
      requires Sound()
      modifies this
      ensures Unloaded() && Sound() && kcrEnable == old(kcrEnable) && cache == null
      ensures live == old(live) - Blocks(old(caches)) - Blocks(old(l3Tables)) - Blocks(old(kcrRegion))
    {
      if caches != Null {
        Release(caches);
        caches := Null;
      }
      if l3Tables != Null {
        Release(l3Tables);
        l3Tables := Null;
      }
      if kcrRegion != Null {
        Release(kcrRegion);
        kcrRegion := Null;
      }
      cache := null;
    }

    // kcr_is_enabled
    predicate IsEnabled()
      reads this
    {
      kcrEnable && kcrRegion != Null
    }

    /** The module parameter kcr_enable stays writable: switched off, KCR counts as disabled
        though it holds its region; switched on, it counts as enabled if it holds one. */
    method SetEnable(on: bool)
      modifies this`kcrEnable
      ensures kcrEnable == on && IsEnabled() == (on && kcrRegion != Null)
    {
      kcrEnable := on;
    }

    /** Loading and unloading returns the allocators to where they were, whichever of the
        allocations fail, and KCR counts as enabled in between exactly when it was asked
        for and all three succeeded. */
    method LoadUnload(o: Outcomes) returns (enabled: bool)
      requires Unloaded() && Sound() && S.ValidConfig(g)
      modifies this
      ensures Unloaded() && Sound() && live == old(live)
      ensures enabled == (old(kcrEnable) && o.percpu && o.region && o.tables)
      ensures !IsEnabled()
    {
      var ret := KcrInit(o);
      enabled := IsEnabled();
      KcrExit();
    }
  }
}
