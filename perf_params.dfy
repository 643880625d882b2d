/** The generic performance-parameter selectors
    (src/components/tl/shm/perf/tl_shm_coll_perf_params.h): each fills the
    caller's parameter record from the library configuration only. The
    records are the derived structs of tl_shm.h, so they are objects the
    selectors write through a pointer. */
module PerfParamsSel {
  import opened TlShm

  /** ucc_tl_shm_pp_bcast_t: the tree parameters and the broadcast strategy. */
  class PpBcast {
    var super: PerfParams
    var progressAlg: BcastAlg

    constructor (super: PerfParams, progressAlg: BcastAlg)
      ensures this.super == super && this.progressAlg == progressAlg
    {
      this.super, this.progressAlg := super, progressAlg;
    }
  }

  /** ucc_tl_shm_pp_reduce_t: the tree parameters alone. */
  class PpReduce {
    var super: PerfParams

    constructor (super: PerfParams)
      ensures this.super == super
    {
      this.super := super;
    }
  }

  /** The tree parameters the generic bcast selector picks. */
  function BcastTreeParams(cfg: LibConfig): PerfParams
  {
    PerfParams(cfg.baseTreeOnly, cfg.bcastBaseRadix, cfg.bcastTopRadix)
  }

  /** The tree parameters the generic reduce selector picks. */
  function ReduceTreeParams(cfg: LibConfig): PerfParams
  {
    PerfParams(cfg.baseTreeOnly, cfg.reduceBaseRadix, cfg.reduceTopRadix)
  }

  /** ucc_tl_shm_perf_params_generic_bcast: the strategy is the configured
      one, base_tree_only the configured flag, and the radices the
      configured bcast radices. The task is read only for its library's
      configuration, so that configuration is the only input. */
  method GenericBcast(p: PpBcast, cfg: LibConfig)
    modifies p
    ensures p.progressAlg == cfg.bcastAlg && p.super == BcastTreeParams(cfg)
  {
    p.progressAlg := cfg.bcastAlg;
    p.super := p.super.(baseTreeOnly := cfg.baseTreeOnly);
    p.super := p.super.(baseRadix := cfg.bcastBaseRadix);
    p.super := p.super.(topRadix := cfg.bcastTopRadix);
  }

  /** ucc_tl_shm_perf_params_generic_reduce: base_tree_only the configured
      flag and the radices the configured reduce radices; only the three
      fields of `super` are written. */
  method GenericReduce(p: PpReduce, cfg: LibConfig)
    modifies p`super
    ensures p.super == ReduceTreeParams(cfg)
  {
    p.super := p.super.(baseTreeOnly := cfg.baseTreeOnly);
    p.super := p.super.(baseRadix := cfg.reduceBaseRadix);
    p.super := p.super.(topRadix := cfg.reduceTopRadix);
  }
}
