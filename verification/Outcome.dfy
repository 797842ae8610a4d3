/** Results of kernel routines: an optional value, and a routine that either returns or panics. */
module Outcomes {

  /** Error codes, returned negated. */
  const E_NO_MEM := 4
  const E_NO_FREE_ENV := 6

  datatype Option<+T> = None | Some(value: T)

  /** The sites at which the kernel calls panic, which never returns. */
  datatype Panic =
    | WalkRange        // walk: va at or above MAXVA
    | MapSize          // mappages: size is zero
    | Remap            // mappages: page already mapped
    | Kvmmap           // kvmmap: mappages failed
    | UnmapAlign       // uvmunmap: va not page aligned
    | NotMapped        // uvmunmap: page not mapped
    | NotLeaf          // uvmunmap: entry is not a leaf
    | KfreeRange       // kfree: bad page address
    | LeafMapped       // freewalk: leaf still mapped
    | NoEnvMemory      // env_create_envs: out of memory
    | NoRunnable       // schedule: no runnable env
    | NotRunnable      // env_run: not runnable env

  datatype Outcome<+T> = Returned(value: T) | Panicked(why: Panic)
}
