/** The authenticated terminal ledger: one file outside the data root, replaced by rename. */
module Ledger {
  import opened Orders
  import opened Files

  /** `ids` is what a read of the file returns; `settled` is what no power loss can take away. */
  datatype LedgerState = LedgerState(ids: set<Scope>, settled: set<Scope>) {
    predicate Valid() { settled <= ids }
  }

  /** What recording `s` may do, whatever fails. An id that is already visible is acknowledged
      without writing or syncing; an error may come after the id became visible. */
  ghost predicate RecordsTo(l: LedgerState, l': LedgerState, s: Scope, ok: bool) {
    && (l'.ids == l.ids || l'.ids == l.ids + {s})
    && (l'.settled == l.settled || l'.settled == l'.ids)
    && (s in l.ids ==> l' == l)
    && (ok ==> s in l'.ids)
    && (ok && s !in l.ids ==> l'.settled == l'.ids)
  }

  /** A power loss leaves one of the versions since the last sync. */
  ghost predicate LosesPower(l: LedgerState, l': LedgerState) {
    l.settled <= l'.ids <= l.ids && l'.settled == l'.ids
  }

  class TerminalLedger {
    const vol: Volume
    var ids: set<Scope>
    var settled: set<Scope>

    function State(): LedgerState
      reads this
    {
      LedgerState(ids, settled)
    }

    constructor (vol: Volume, state: LedgerState)
      ensures this.vol == vol && State() == state
    {
      this.vol, ids, settled := vol, state.ids, state.settled;
    }

    /** Read the generation marker, then the ledger file. */
    method Load() returns (ok: bool)
      modifies vol`next, vol`alive
      ensures old(vol.Healthy()) ==> ok && vol.Healthy()
    {
      ok := vol.Attempt();
      if ok { ok := vol.Attempt(); }
    }

    /** Clear a leftover temporary; create, write and sync the new one. */
    method WriteTemp() returns (ok: bool)
      modifies vol`next, vol`alive
      ensures old(vol.Healthy()) ==> ok && vol.Healthy()
    {
      ok := vol.Attempt();
      if ok { ok := vol.Attempt(); }
      if ok { ok := vol.Attempt(); }
      if ok { ok := vol.Attempt(); }
    }

    method Record(s: Scope) returns (ok: bool)
      modifies this, vol`next, vol`alive
      ensures old(vol.Healthy()) ==> ok && vol.Healthy()
      ensures RecordsTo(old(State()), State(), s, ok)
    {
      ok := Load();
      if !ok || s in ids { return; }
      ok := WriteTemp();
      if ok { ok := vol.Attempt(); } // rename
      if !ok { return; }
      ids := ids + {s};
      ok := vol.Attempt(); // sync the directory
      if ok { settled := ids; }
    }
  }
}
