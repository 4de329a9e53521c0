/// Shared value types: the read-only test configuration (pf_conf.h) and the
/// outcome of a C function that may BAIL.
module Config {

  datatype Option<T> = None | Some(value: T)

  /**
   * What a C function that may call BAIL hands back: either its integer
   * return code, or Abort when BAIL printed its message and called exit(-1).
   */
  datatype Ret = Ret(rc: int) | Abort

  /** The shared completed/failed counters record (pf_stat_t) a context points at; only its identity is kept. */
  datatype StatRef = StatRef(id: nat)

  /**
   * pf_conf_t. `path` is the page to GET (None when it is NULL).
   * The data handlers are those of the HTTP exchange; `doInit` says whether
   * `do_init` is set (to http_init) or left NULL. The server address is
   * only passed to connect(), whose result is an input of the model.
   */
  datatype Conf = Conf(path: Option<string>, doInit: bool, noAgents: nat, noConnections: nat)
}
