/** The client-side dataset selector (src/variables.js): a module variable
    `dbPool` mirrored into the session storage entry `dbPool`. */
module PoolSetting {
  import opened Wrappers

  const MainPool: string := "mainPool"
  const DemoPool: string := "demoPool"

  /** The value `toggleDbPool` switches to; None for a value it refuses. */
  function Toggled(p: string): (r: Option<string>)
    ensures r.Some? <==> p == MainPool || p == DemoPool
    ensures p == MainPool ==> r == Some(DemoPool)
    ensures p == DemoPool ==> r == Some(MainPool)
    ensures r.Some? ==> r.value != p && (r.value == MainPool || r.value == DemoPool)
  {
    if p == DemoPool then Some(MainPool)
    else if p == MainPool then Some(DemoPool)
    else None
  }

  /** Toggling twice gives back the original value. */
  lemma ToggleTwice(p: string)
    requires p == MainPool || p == DemoPool
    ensures Toggled(p).Some? && Toggled(Toggled(p).value) == Some(p)
  {
  }

  /** The value the module starts with: the stored entry when it is a
      non-empty string, else `'mainPool'`. */
  function InitialPool(stored: Option<string>): (p: string)
    ensures stored.Some? && stored.value != "" ==> p == stored.value
    ensures stored.None? || stored == Some("") ==> p == MainPool
    ensures p != ""
  {
    match stored
    case Some(s) => if s != "" then s else MainPool
    case None => MainPool
  }

  class DbPoolSetting {
    /** The module variable `dbPool`. */
    var dbPool: string
    /** The session storage entry `dbPool`; None while it is not set. */
    var stored: Option<string>

    /** Loading the module reads the stored entry and writes nothing. */
    constructor (stored: Option<string>)
      ensures this.stored == stored
      ensures dbPool == InitialPool(stored)
    {
      this.stored := stored;
      dbPool := InitialPool(stored);
    }

    /** `getDbPool`: the current value, nothing changed. */
    method GetDbPool() returns (p: string)
      ensures p == dbPool
    {
      p := dbPool;
    }

    /** `setDbPool`: the variable and the stored entry both become `v`. */
    method SetDbPool(v: string)
      modifies this
      ensures dbPool == v && stored == Some(v)
    {
      dbPool := v;
      stored := Some(v);
    }

    /** `toggleDbPool`: `ok` is false exactly when it throws (the value was
        neither pool name), and then nothing changed; otherwise the variable
        switches to the other pool and the stored entry follows it. */
    method ToggleDbPool() returns (ok: bool)
      modifies this
      ensures ok <==> old(dbPool) == MainPool || old(dbPool) == DemoPool
      ensures ok ==> Some(dbPool) == Toggled(old(dbPool)) && stored == Some(dbPool)
      ensures !ok ==> dbPool == old(dbPool) && stored == old(stored)
    {
      if dbPool != DemoPool && dbPool != MainPool {
        return false;
      }
      dbPool := if dbPool == DemoPool then MainPool else DemoPool;
      stored := Some(dbPool);
      ok := true;
    }
  }

  /** Two toggles from a valid value restore the variable and leave the stored
      entry equal to it. */
  method ToggleTwiceRestores(s: DbPoolSetting) returns (ok1: bool, ok2: bool)
    requires s.dbPool == MainPool || s.dbPool == DemoPool
    modifies s
    ensures ok1 && ok2
    ensures s.dbPool == old(s.dbPool) && s.stored == Some(s.dbPool)
  {
    ok1 := s.ToggleDbPool();
    ok2 := s.ToggleDbPool();
  }
}
