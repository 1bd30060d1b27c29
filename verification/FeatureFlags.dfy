/**
 The feature flag store: optimistic versions and an audit chain, written by concurrent
 transactions.

 As for the referrals, a row lock is held until its transaction ends, a statement that waited
 sees the latest committed row, and an insert waits for an unfinished insert of the same key.
 */
module FeatureFlags {
  import opened Options

  datatype Flag = Flag(enabled: bool, version: int, updatedAt: int)

  datatype Audit = Audit(
    name: string, previousEnabled: bool, newEnabled: bool, previousVersion: int, newVersion: int, occurredAt: int)

  /** Committed rows, and committed audit records in the order of their commits. */
  datatype Store = Store(flags: map<string, Flag>, audit: seq<Audit>)

  /** The known flags with their configured initial values, and the time of seeding. */
  datatype Config = Config(initial: map<string, bool>, seededAt: int)

  datatype Request = Request(name: string, enabled: bool, expected: Option<int>, at: int)

  datatype Result = Applied(audit: Audit) | UnknownFlag | VersionConflict

  // ---------------------------------------------------------------- one writer

  /** Rows that `_seed_missing` inserts: version 1 of every known flag that has no row. */
  function Seeds(c: Config, flags: map<string, Flag>): map<string, Flag> {
    map n | n in c.initial && n !in flags :: Flag(c.initial[n], 1, c.seededAt)
  }

  function Written(row: Flag, req: Request): Flag {
    Flag(req.enabled, row.version + 1, req.at)
  }

  function Recorded(row: Flag, req: Request): Audit {
    Audit(req.name, row.enabled, req.enabled, row.version, row.version + 1, req.at)
  }

  predicate Accepts(row: Flag, req: Request) {
    req.expected.Some? ==> row.version == req.expected.value
  }

  /** `set_flag` run alone; a refusal rolls the seeding back as well. */
  function SetFlag(c: Config, s: Store, req: Request): (Store, Result) {
    var flags := s.flags + Seeds(c, s.flags);
    if req.name !in flags then (s, UnknownFlag)
    else if !Accepts(flags[req.name], req) then (s, VersionConflict)
    else
      var row := flags[req.name];
      (Store(flags[req.name := Written(row, req)], s.audit + [Recorded(row, req)]), Applied(Recorded(row, req)))
  }

  class FeatureFlagStore {
    const config: Config
    var flags: map<string, Flag>
    var audit: seq<Audit>

    constructor (config: Config)
      ensures this.config == config && Contents() == Store(map[], [])
    {
      this.config, flags, audit := config, map[], [];
    }

    function Contents(): Store
      reads this
    {
      Store(flags, audit)
    }

    method Set(req: Request) returns (result: Result)
      modifies this
      ensures (Contents(), result) == SetFlag(config, old(Contents()), req)
    {
      var seeded := flags + Seeds(config, flags);
      if req.name !in seeded {
        return UnknownFlag;
      }
      var row := seeded[req.name];
      if req.expected.Some? && row.version != req.expected.value {
        return VersionConflict;
      }
      var record := Recorded(row, req);
      flags := seeded[req.name := Written(row, req)];
      audit := audit + [record];
      result := Applied(record);
    }
  }

  // ---------------------------------------------------------------- what a write decides and writes

  predicate Known(c: Config, s: Store, name: string) {
    name in s.flags || name in c.initial
  }

  /** A flag without a row counts as its seed: version 1 and the configured value. */
  function VersionOf(s: Store, name: string): int {
    if name in s.flags then s.flags[name].version else 1
  }

  function ValueOf(c: Config, s: Store, name: string): bool
    requires Known(c, s, name)
  {
    if name in s.flags then s.flags[name].enabled else c.initial[name]
  }

  /** A write of a known flag is applied exactly when it expects no version or the current one. */
  lemma AppliedIff(c: Config, s: Store, req: Request)
    ensures var (s', r) := SetFlag(c, s, req);
            && (r.UnknownFlag? <==> !Known(c, s, req.name))
            && (r.Applied? <==> Known(c, s, req.name)
                                && (req.expected == None || req.expected == Some(VersionOf(s, req.name))))
            && (!r.Applied? ==> s' == s)
  {
  }

  /** An applied write stores the value, the next version and the time, and records just that. */
  lemma AppliedWrites(c: Config, s: Store, req: Request)
    requires SetFlag(c, s, req).1.Applied?
    ensures var (s', r) := SetFlag(c, s, req);
            var v := VersionOf(s, req.name);
            && req.name in s'.flags && s'.flags[req.name] == Flag(req.enabled, v + 1, req.at)
            && r.audit == Audit(req.name, ValueOf(c, s, req.name), req.enabled, v, v + 1, req.at)
            && s'.audit == s.audit + [r.audit]
            && s'.flags.Keys == s.flags.Keys + c.initial.Keys + {req.name}
            && (forall n :: n in s.flags && n != req.name ==> s'.flags[n] == s.flags[n])
            && (forall n :: n in c.initial && n !in s.flags && n != req.name ==>
                  s'.flags[n] == Flag(c.initial[n], 1, c.seededAt))
  {
  }

  // ---------------------------------------------------------------- the audit chain

  /** The audit records of one flag. */
  function Records(audit: seq<Audit>, name: string): seq<Audit> {
    if audit == [] then []
    else
      var earlier, last := Records(audit[..|audit| - 1], name), audit[|audit| - 1];
      if last.name == name then earlier + [last] else earlier
  }

  /**
   The records of a flag, the i-th leading from version i + 1 to i + 2, start at the seed,
   hand each new value and version on to the next record, and end at the current row.
   */
  ghost predicate Chained(initial: bool, records: seq<Audit>, current: Flag) {
    && current.version == |records| + 1
    && current.enabled == (if records == [] then initial else records[|records| - 1].newEnabled)
    && (records != [] ==> records[0].previousEnabled == initial)
    && (forall i :: 0 <= i < |records| ==> records[i].previousVersion == i + 1 && records[i].newVersion == i + 2)
    && (forall i :: 0 < i < |records| ==> HandsOn(records, i))
  }

  ghost predicate HandsOn(records: seq<Audit>, i: nat)
    requires 0 < i < |records|
  {
    records[i].previousEnabled == records[i - 1].newEnabled
  }

  ghost predicate AuditChain(c: Config, s: Store) {
    && (forall n :: n in s.flags ==> n in c.initial && Chained(c.initial[n], Records(s.audit, n), s.flags[n]))
    && (forall n :: n !in s.flags ==> Records(s.audit, n) == [])
  }

  lemma RecordsOfMore(audit: seq<Audit>, a: Audit, name: string)
    ensures Records(audit + [a], name) == if a.name == name then Records(audit, name) + [a] else Records(audit, name)
  {
    assert (audit + [a])[..|audit|] == audit;
  }

  lemma ChainGrows(initial: bool, records: seq<Audit>, row: Flag, req: Request)
    requires Chained(initial, records, row)
    ensures Chained(initial, records + [Recorded(row, req)], Written(row, req))
  {
    var more := records + [Recorded(row, req)];
    forall i | 0 < i < |more| ensures HandsOn(more, i) {
      assert i < |records| ==> HandsOn(records, i) && more[i] == records[i] && more[i - 1] == records[i - 1];
    }
  }

  /** A seeded row starts a chain without records. */
  lemma SeedsAreChained(c: Config, s: Store)
    requires AuditChain(c, s)
    ensures AuditChain(c, s.(flags := s.flags + Seeds(c, s.flags)))
  {
  }

  lemma WriteKeepsChain(c: Config, s: Store, req: Request)
    requires AuditChain(c, s) && req.name in s.flags
    ensures var row := s.flags[req.name];
            AuditChain(c, Store(s.flags[req.name := Written(row, req)], s.audit + [Recorded(row, req)]))
  {
    var row := s.flags[req.name];
    ChainGrows(c.initial[req.name], Records(s.audit, req.name), row, req);
    var record := Recorded(row, req);
    forall n
      ensures Records(s.audit + [record], n) ==
              if n == req.name then Records(s.audit, n) + [record] else Records(s.audit, n)
    {
      RecordsOfMore(s.audit, record, n);
    }
  }

  lemma SetFlagKeepsChain(c: Config, s: Store, req: Request)
    requires AuditChain(c, s)
    ensures AuditChain(c, SetFlag(c, s, req).0)
  {
    var seeded := s.(flags := s.flags + Seeds(c, s.flags));
    SeedsAreChained(c, s);
    if req.name in seeded.flags {
      WriteKeepsChain(c, seeded, req);
    }
  }

  // ---------------------------------------------------------------- concurrent writers

  datatype Phase =
    | Begun
    | Seeded(seeds: map<string, Flag>)
    | RowLocked(seeds: map<string, Flag>, row: Flag)
    | RowWritten(seeds: map<string, Flag>, row: Flag)
    | Finished(result: Result)
    | RolledBack

  datatype Tx = Tx(req: Request, phase: Phase) {
    predicate Over() { phase.Finished? || phase.RolledBack? }

    predicate Inserted(name: string) {
      (phase.Seeded? || phase.RowLocked? || phase.RowWritten?) && name in phase.seeds
    }

    predicate HoldsRow(name: string) {
      (phase.RowLocked? || phase.RowWritten?) && req.name == name
    }
  }

  datatype System = System(store: Store, txs: seq<Tx>) {
    predicate Others(t: nat, holds: Tx -> bool) {
      exists i :: 0 <= i < |txs| && i != t && holds(txs[i])
    }

    function At(t: nat, phase: Phase): System
      requires t < |txs|
    {
      this.(txs := txs[t := txs[t].(phase := phase)])
    }
  }

  /** The next statement of transaction `t`, or None while it has to wait or is over. */
  function Advance(c: Config, s: System, t: nat): Option<System>
    requires t < |s.txs|
  {
    var tx := s.txs[t];
    match tx.phase
    case Begun =>
      // insert the seed rows that are missing
      var seeds := Seeds(c, s.store.flags);
      if exists n :: n in seeds && s.Others(t, (o: Tx) => o.Inserted(n)) then None
      else Some(s.At(t, Seeded(seeds)))
    case Seeded(seeds) =>
      // read and lock the flag's row, committed or seeded by this transaction
      var name := tx.req.name;
      if name in seeds then Some(s.At(t, RowLocked(seeds, seeds[name])))
      else if name !in s.store.flags then Some(s.At(t, Finished(UnknownFlag)))
      else if s.Others(t, (o: Tx) => o.HoldsRow(name)) then None
      else Some(s.At(t, RowLocked(seeds, s.store.flags[name])))
    case RowLocked(seeds, row) =>
      if Accepts(row, tx.req) then Some(s.At(t, RowWritten(seeds, row)))
      else Some(s.At(t, Finished(VersionConflict)))
    case RowWritten(seeds, row) =>
      var record := Recorded(row, tx.req);
      var flags := (s.store.flags + seeds)[tx.req.name := Written(row, tx.req)];
      Some(s.At(t, Finished(Applied(record))).(store := Store(flags, s.store.audit + [record])))
    case Finished(_) => None
    case RolledBack => None
  }

  ghost predicate StepBy(c: Config, s: System, t: nat, s': System) {
    && t < |s.txs|
    && (Advance(c, s, t) == Some(s') || (!s.txs[t].Over() && s' == s.At(t, RolledBack)))
  }

  ghost predicate Next(c: Config, s: System, s': System) {
    exists t: nat :: StepBy(c, s, t, s')
  }

  ghost predicate IsRun(c: Config, run: seq<System>, store: Store, reqs: seq<Request>) {
    && run != []
    && run[0] == System(store, seq(|reqs|, i requires 0 <= i < |reqs| => Tx(reqs[i], Begun)))
    && forall i :: 0 <= i < |run| - 1 ==> Next(c, run[i], run[i + 1])
  }

  function Last(run: seq<System>): System
    requires run != []
  {
    run[|run| - 1]
  }

  // ---------------------------------------------------------------- invariants

  /** What an unfinished transaction has inserted and locked still fits the committed rows. */
  ghost predicate Current(c: Config, s: System, tx: Tx) {
    match tx.phase
    case Seeded(seeds) => Unseeded(c, s, seeds)
    case RowLocked(seeds, row) => Unseeded(c, s, seeds) && Lookup(s.store.flags + seeds, tx.req.name) == Some(row)
    case RowWritten(seeds, row) =>
      Unseeded(c, s, seeds) && Lookup(s.store.flags + seeds, tx.req.name) == Some(row) && Accepts(row, tx.req)
    case Finished(Applied(audit)) =>
      && audit.name == tx.req.name && audit.name in s.store.flags
      && audit.newVersion == audit.previousVersion + 1 <= s.store.flags[audit.name].version
      && (tx.req.expected.Some? ==> audit.previousVersion == tx.req.expected.value)
    case _ => true
  }

  ghost predicate Unseeded(c: Config, s: System, seeds: map<string, Flag>) {
    && seeds.Keys !! s.store.flags.Keys
    && (forall n :: n in seeds ==> n in c.initial && seeds[n] == Flag(c.initial[n], 1, c.seededAt))
    && (forall n :: n in c.initial ==> n in seeds || n in s.store.flags)
  }

  ghost predicate Exclusive(txs: seq<Tx>) {
    && (forall i, j, n :: 0 <= i < j < |txs| && txs[i].Inserted(n) ==> !txs[j].Inserted(n))
    && (forall i, j, n :: 0 <= i < j < |txs| && txs[i].HoldsRow(n) ==> !txs[j].HoldsRow(n))
  }

  /** No two applied writes of one flag started from the same version. */
  ghost predicate DistinctVersions(txs: seq<Tx>) {
    forall i, j :: 0 <= i < j < |txs| ==> Differ(txs[i], txs[j])
  }

  ghost predicate Differ(x: Tx, y: Tx) {
    x.phase.Finished? && x.phase.result.Applied? && y.phase.Finished? && y.phase.result.Applied?
    && x.req.name == y.req.name ==>
      x.phase.result.audit.previousVersion != y.phase.result.audit.previousVersion
  }

  ghost predicate Inv(c: Config, s: System) {
    && AuditChain(c, s.store)
    && (forall t :: 0 <= t < |s.txs| ==> Current(c, s, s.txs[t]))
    && Exclusive(s.txs)
    && DistinctVersions(s.txs)
  }

  /** Each step changes the store only by taking effect as one atomic `SetFlag`. */
  lemma StepIsAtomic(c: Config, s: System, t: nat, s': System)
    requires StepBy(c, s, t, s') && Current(c, s, s.txs[t])
    ensures s'.txs == s.At(t, s'.txs[t].phase).txs
    ensures if s'.txs[t].phase.Finished?
            then SetFlag(c, s.store, s.txs[t].req) == (s'.store, s'.txs[t].phase.result)
            else s'.store == s.store
  {
    var tx := s.txs[t];
    if tx.phase.Seeded? || tx.phase.RowLocked? || tx.phase.RowWritten? {
      assert tx.phase.seeds == Seeds(c, s.store.flags);
    }
  }

  lemma StepKeepsOwn(c: Config, s: System, t: nat, s': System)
    requires StepBy(c, s, t, s') && Current(c, s, s.txs[t])
    ensures Current(c, s', s'.txs[t])
  {
    StepIsAtomic(c, s, t, s');
  }

  /** While one transaction holds uncommitted seeds, no other has any. */
  lemma OneSeeder(c: Config, s: System, tx: Tx, o: Tx)
    requires (tx.phase.Seeded? || tx.phase.RowLocked? || tx.phase.RowWritten?) && Unseeded(c, s, tx.phase.seeds)
    requires (o.phase.Seeded? || o.phase.RowLocked? || o.phase.RowWritten?) && Unseeded(c, s, o.phase.seeds)
    requires forall n :: tx.Inserted(n) ==> !o.Inserted(n)
    ensures o.phase.seeds == map[]
  {
    forall n ensures n !in o.phase.seeds {
      assert o.Inserted(n) ==> tx.Inserted(n);
    }
  }

  /** What is committed changes only in rows that the others have not locked or inserted. */
  lemma StepKeepsOthers(c: Config, s: System, t: nat, s': System, i: nat)
    requires StepBy(c, s, t, s') && i < |s.txs| && i != t
    requires Current(c, s, s.txs[t]) && Current(c, s, s.txs[i]) && Exclusive(s.txs)
    ensures s'.txs[i] == s.txs[i] && Current(c, s', s.txs[i])
  {
    StepIsAtomic(c, s, t, s');
    var tx, o := s.txs[t], s.txs[i];
    if tx.phase.RowWritten? && s'.txs[t].phase.Finished? {
      assert tx.HoldsRow(tx.req.name);
      if o.phase.Seeded? || o.phase.RowLocked? || o.phase.RowWritten? {
        OneSeeder(c, s, tx, o);
        if !o.phase.Seeded? {
          assert o.HoldsRow(o.req.name) && o.req.name != tx.req.name;
        }
      }
    }
  }

  lemma StepKeepsExclusive(c: Config, s: System, t: nat, s': System)
    requires StepBy(c, s, t, s') && Exclusive(s.txs)
    requires forall i :: 0 <= i < |s.txs| ==> Current(c, s, s.txs[i])
    ensures Exclusive(s'.txs)
  {
    var tx, tx' := s.txs[t], s'.txs[t];
    forall i, n | 0 <= i < |s.txs| && i != t && tx'.Inserted(n) ensures !s.txs[i].Inserted(n) {
      if tx.phase.Begun? {
        assert n in Seeds(c, s.store.flags);
      } else {
        assert tx.Inserted(n);
      }
    }
    forall i, n | 0 <= i < |s.txs| && i != t && tx'.HoldsRow(n) ensures !s.txs[i].HoldsRow(n) {
      if tx.phase.Seeded? && n in tx.phase.seeds && s.txs[i].HoldsRow(n) {
        // the holder would have inserted the row too
        assert s.txs[i].Inserted(n) && tx.Inserted(n);
      }
    }
  }

  lemma AppliedFromCurrentVersion(c: Config, s: System, t: nat, s': System, i: nat)
    requires Inv(c, s) && StepBy(c, s, t, s') && i < |s.txs| && i != t
    ensures Differ(s'.txs[t], s.txs[i]) && Differ(s.txs[i], s'.txs[t])
  {
    StepIsAtomic(c, s, t, s');
    assert Current(c, s, s.txs[t]) && Current(c, s, s.txs[i]);
  }

  lemma StepKeepsInv(c: Config, s: System, t: nat, s': System)
    requires Inv(c, s) && StepBy(c, s, t, s')
    ensures Inv(c, s')
  {
    StepIsAtomic(c, s, t, s');
    SetFlagKeepsChain(c, s.store, s.txs[t].req);
    StepKeepsOwn(c, s, t, s');
    StepKeepsExclusive(c, s, t, s');
    forall i | 0 <= i < |s.txs| && i != t
      ensures s'.txs[i] == s.txs[i] && Current(c, s', s'.txs[i]) && Differ(s'.txs[t], s'.txs[i])
              && Differ(s'.txs[i], s'.txs[t])
    {
      StepKeepsOthers(c, s, t, s', i);
      AppliedFromCurrentVersion(c, s, t, s', i);
    }
  }

  lemma NextKeepsInv(c: Config, s: System, s': System)
    requires Inv(c, s) && Next(c, s, s')
    ensures Inv(c, s')
  {
    var t: nat :| StepBy(c, s, t, s');
    StepKeepsInv(c, s, t, s');
  }

  lemma {:induction false} RunKeepsInv(c: Config, run: seq<System>, store: Store, reqs: seq<Request>)
    requires AuditChain(c, store) && IsRun(c, run, store, reqs)
    ensures Inv(c, Last(run))
  {
    if |run| > 1 {
      RunKeepsInv(c, run[..|run| - 1], store, reqs);
      NextKeepsInv(c, run[|run| - 2], run[|run| - 1]);
    }
  }

  // ---------------------------------------------------------------- main results

  /** In every concurrent run the audit of each flag is an unbroken chain from seed to current row. */
  lemma AuditIsUnbroken(c: Config, run: seq<System>, store: Store, reqs: seq<Request>)
    requires AuditChain(c, store) && IsRun(c, run, store, reqs)
    ensures AuditChain(c, Last(run).store)
  {
    RunKeepsInv(c, run, store, reqs);
  }

  /** Of the writers that expected the same version of the same flag, at most one is applied. */
  lemma OneWriterPerVersion(c: Config, run: seq<System>, store: Store, reqs: seq<Request>, t1: nat, t2: nat)
    requires AuditChain(c, store) && IsRun(c, run, store, reqs)
    requires t1 < t2 < |Last(run).txs|
    requires var x, y := Last(run).txs[t1].req, Last(run).txs[t2].req;
             x.name == y.name && x.expected.Some? && x.expected == y.expected
    ensures var x, y := Last(run).txs[t1].phase, Last(run).txs[t2].phase;
            !(x.Finished? && x.result.Applied? && y.Finished? && y.result.Applied?)
  {
    RunKeepsInv(c, run, store, reqs);
    assert Current(c, Last(run), Last(run).txs[t1]) && Current(c, Last(run), Last(run).txs[t2]);
    assert Differ(Last(run).txs[t1], Last(run).txs[t2]);
  }

  /** A refused or rolled-back write leaves rows and audit as they are; an applied one is one atomic write. */
  lemma RefusalChangesNothing(c: Config, run: seq<System>, store: Store, reqs: seq<Request>, t: nat, s': System)
    requires AuditChain(c, store) && IsRun(c, run, store, reqs) && StepBy(c, Last(run), t, s')
    ensures s'.store != Last(run).store ==>
              s'.txs[t].phase.Finished? && s'.txs[t].phase.result.Applied?
              && s'.store == SetFlag(c, Last(run).store, Last(run).txs[t].req).0
  {
    RunKeepsInv(c, run, store, reqs);
    StepIsAtomic(c, Last(run), t, s');
  }

  // ---------------------------------------------------------------- progress

  function Progress(phase: Phase): nat {
    match phase
    case Begun => 0
    case Seeded(_) => 1
    case RowLocked(_, _) => 2
    case RowWritten(_, _) => 3
    case Finished(_) => 4
    case RolledBack => 4
  }

  /** Every statement takes its transaction further, never to a rollback, and leaves the others alone. */
  lemma StatementsProgress(c: Config, s: System, t: nat)
    requires t < |s.txs| && Advance(c, s, t).Some?
    ensures var s' := Advance(c, s, t).value;
            && |s'.txs| == |s.txs| && Progress(s'.txs[t].phase) > Progress(s.txs[t].phase)
            && !s'.txs[t].phase.RolledBack?
            && forall i :: 0 <= i < |s.txs| && i != t ==> s'.txs[i] == s.txs[i]
  {
  }

  /** While a transaction is unfinished, some transaction can run its next statement. */
  lemma NeverStuck(c: Config, run: seq<System>, store: Store, reqs: seq<Request>)
    requires AuditChain(c, store) && IsRun(c, run, store, reqs)
    requires exists t :: 0 <= t < |Last(run).txs| && !Last(run).txs[t].Over()
    ensures exists t :: 0 <= t < |Last(run).txs| && Advance(c, Last(run), t).Some?
  {
    var s := Last(run);
    if t :| 0 <= t < |s.txs| && (s.txs[t].phase.RowLocked? || s.txs[t].phase.RowWritten?) {
      assert Advance(c, s, t).Some?;
    } else if t :| 0 <= t < |s.txs| && s.txs[t].phase.Seeded? {
      assert Advance(c, s, t).Some?;
    } else {
      var t :| 0 <= t < |s.txs| && !s.txs[t].Over();
      assert Advance(c, s, t).Some?;
    }
  }

  /** Some write of the flag was applied to this version. */
  ghost predicate Won(s: System, name: string, version: int) {
    exists u :: 0 <= u < |s.txs| && WonBy(s.txs[u], name, version)
  }

  ghost predicate WonBy(tx: Tx, name: string, version: int) {
    && tx.phase.Finished? && tx.phase.result.Applied? && tx.req.name == name
    && tx.phase.result.audit.previousVersion == version
  }

  /** Since the flag had `version`: it grew only by a write applied to it, and writer `t` was not refused before. */
  ghost predicate Contest(s: System, t: nat, version: int)
    requires t < |s.txs|
  {
    var name := s.txs[t].req.name;
    && VersionOf(s.store, name) >= version
    && (VersionOf(s.store, name) > version ==> Won(s, name, version))
    && (s.txs[t].phase.Finished? ==> VersionOf(s.store, name) > version)
  }

  lemma WonStays(c: Config, s: System, k: nat, s': System, name: string, version: int)
    requires StepBy(c, s, k, s') && Won(s, name, version)
    ensures Won(s', name, version)
  {
    var u :| 0 <= u < |s.txs| && WonBy(s.txs[u], name, version);
    assert u != k && s'.txs[u] == s.txs[u];
  }

  lemma StepKeepsContest(c: Config, s: System, k: nat, s': System, t: nat, version: int)
    requires Inv(c, s) && StepBy(c, s, k, s') && t < |s.txs| && Contest(s, t, version)
    requires s.txs[t].req.name in c.initial && s.txs[t].req.expected == Some(version)
    ensures Contest(s', t, version)
  {
    var name, req := s.txs[t].req.name, s.txs[k].req;
    StepIsAtomic(c, s, k, s');
    if VersionOf(s.store, name) > version {
      WonStays(c, s, k, s', name, version);
    }
    if s'.txs[k].phase.Finished? {
      AppliedIff(c, s.store, req);
      if s'.txs[k].phase.result.Applied? {
        AppliedWrites(c, s.store, req);
        assert s'.txs[k].phase.result.audit.previousVersion == VersionOf(s.store, req.name);
        assert req.name == name && VersionOf(s.store, name) == version ==> WonBy(s'.txs[k], name, version);
      }
    }
  }

  lemma {:induction false} ContestGoesOn(c: Config, run: seq<System>, store: Store, reqs: seq<Request>,
                                         i: nat, t: nat, version: int)
    requires AuditChain(c, store) && IsRun(c, run, store, reqs)
    requires i < |run| && t < |reqs| && |run[i].txs| == |reqs| && !run[i].txs[t].Over()
    requires reqs[t].name in c.initial && reqs[t].expected == Some(version)
    requires VersionOf(run[i].store, reqs[t].name) == version
    ensures |Last(run).txs| == |reqs| && Last(run).txs[t].req == reqs[t] && Contest(Last(run), t, version)
  {
    RequestsStay(c, run, store, reqs);
    if i < |run| - 1 {
      var prior := run[..|run| - 1];
      ContestGoesOn(c, prior, store, reqs, i, t, version);
      RunKeepsInv(c, prior, store, reqs);
      assert Next(c, run[|run| - 2], run[|run| - 1]);
      var k: nat :| StepBy(c, Last(prior), k, Last(run));
      StepKeepsContest(c, Last(prior), k, Last(run), t, version);
    }
  }

  lemma {:induction false} RequestsStay(c: Config, run: seq<System>, store: Store, reqs: seq<Request>)
    requires IsRun(c, run, store, reqs)
    ensures |Last(run).txs| == |reqs| && forall t :: 0 <= t < |reqs| ==> Last(run).txs[t].req == reqs[t]
  {
    if |run| > 1 {
      RequestsStay(c, run[..|run| - 1], store, reqs);
      assert Next(c, run[|run| - 2], run[|run| - 1]);
    }
  }

  /**
   A writer that was still running when the flag had the version it expects, and has finished,
   leaves exactly one applied write of that version behind: its own or the one it lost to.
   */
  lemma OneWriterWins(c: Config, run: seq<System>, store: Store, reqs: seq<Request>, i: nat, t: nat, version: int)
    requires AuditChain(c, store) && IsRun(c, run, store, reqs)
    requires i < |run| && t < |reqs| && |run[i].txs| == |reqs| && !run[i].txs[t].Over()
    requires reqs[t].name in c.initial && reqs[t].expected == Some(version)
    requires VersionOf(run[i].store, reqs[t].name) == version
    requires t < |Last(run).txs| && Last(run).txs[t].phase.Finished?
    ensures Won(Last(run), reqs[t].name, version)
    ensures forall u, v :: 0 <= u < v < |Last(run).txs| && WonBy(Last(run).txs[u], reqs[t].name, version) ==>
              !WonBy(Last(run).txs[v], reqs[t].name, version)
  {
    ContestGoesOn(c, run, store, reqs, i, t, version);
    RunKeepsInv(c, run, store, reqs);
    forall u, v | 0 <= u < v < |Last(run).txs| && WonBy(Last(run).txs[u], reqs[t].name, version)
      ensures !WonBy(Last(run).txs[v], reqs[t].name, version)
    {
      assert Differ(Last(run).txs[u], Last(run).txs[v]);
    }
  }
}
