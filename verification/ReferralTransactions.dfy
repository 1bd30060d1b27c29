/**
 Concurrent `activate_once` transactions against the database.

 Each transaction runs the statements of the asyncpg repository one at a time, interleaved
 with the others.  The locking assumptions are those of PostgreSQL at READ COMMITTED:
 a row lock, taken by a locking read or by an update, is held until the transaction
 ends, a statement that waited for the lock sees the latest committed row, and the writes
 of a transaction are invisible to the others until it commits.  A unique index makes an
 insertion or update wait for an unfinished transaction that wrote the same key.

 Main result: whatever the interleaving, and whichever transactions are rolled back, the
 committed database and every result returned to a caller are those of running the atomic
 `ActivateOnce` of the in-memory repository in some sequential order.
 */
module ReferralTransactions {
  import opened Options
  import opened Referrals

  /** Where a transaction stands: what it holds and has written, not yet committed. */
  datatype Phase =
    | Begun
    | EventLocked(event: ReferralEvent)
    | EventUpdated(event: ReferralEvent)
    | UserUpdated(event: ReferralEvent, row: User)
    | AwardInserted(event: ReferralEvent, row: User)
    | ReadyToCommit(event: ReferralEvent, row: User, award: Option<Award>)
    | Finished(result: Activation)
    | RolledBack

  datatype Tx = Tx(req: Request, phase: Phase) {
    predicate Over() { phase.Finished? || phase.RolledBack? }

    predicate HoldsEvent(referred: int) {
      && req.referred == referred
      && (phase.EventLocked? || phase.EventUpdated? || phase.UserUpdated? || phase.AwardInserted?
          || phase.ReadyToCommit?)
    }

    /** Has an uncommitted update of the event row. */
    predicate WroteEvent() {
      phase.EventUpdated? || phase.UserUpdated? || phase.AwardInserted? || phase.ReadyToCommit?
    }

    predicate HoldsUser(u: int) {
      (phase.UserUpdated? || phase.AwardInserted? || phase.ReadyToCommit?) && phase.row.userId == u
    }

    /** Has an uncommitted row of the award table for this key. */
    predicate InsertedAward(milestone: (int, int)) {
      || (phase.AwardInserted? && (phase.row.userId, req.threshold) == milestone)
      || (phase.ReadyToCommit? && phase.award.Some? && (phase.row.userId, req.threshold) == milestone)
    }
  }

  /** `log` records the transactions that finished, in the order in which they took effect. */
  datatype System = System(db: Ledger, txs: seq<Tx>, log: seq<nat>) {
    predicate Others(t: nat, holds: Tx -> bool) {
      exists i :: 0 <= i < |txs| && i != t && holds(txs[i])
    }

    function At(t: nat, phase: Phase): System
      requires t < |txs|
    {
      this.(txs := txs[t := txs[t].(phase := phase)])
    }

    function Finish(t: nat, result: Activation): System
      requires t < |txs|
    {
      At(t, Finished(result)).(log := log + [t])
    }
  }

  /** Another event row already carries the qualifying key: the unique index refuses it. */
  predicate KeyTaken(db: Ledger, req: Request) {
    exists k :: k in db.events && k != req.referred && db.events[k].key == req.key
  }

  /** An unfinished transaction gives this key to a row, or takes it from one. */
  predicate WritesKey(db: Ledger, tx: Tx, key: string) {
    && tx.WroteEvent()
    && (tx.phase.event.key == key
        || (tx.req.referred in db.events && db.events[tx.req.referred].key == key))
  }

  function CommitWrites(db: Ledger, tx: Tx): Ledger
    requires tx.phase.ReadyToCommit?
  {
    Ledger(db.users[tx.phase.row.userId := tx.phase.row],
           db.events[tx.req.referred := tx.phase.event],
           if tx.phase.award.Some? then db.awards + {(tx.phase.row.userId, tx.req.threshold)} else db.awards)
  }

  /** The next statement of transaction `t`, or None while it has to wait or is over. */
  function Advance(s: System, t: nat): Option<System>
    requires t < |s.txs|
  {
    var tx := s.txs[t];
    var req := tx.req;
    match tx.phase
    case Begun =>
      // read the event row of the referred user and lock it
      if req.referred !in s.db.events then Some(s.Finish(t, NoEvent))
      else if s.Others(t, (o: Tx) => o.HoldsEvent(req.referred)) then None
      else Some(s.At(t, EventLocked(s.db.events[req.referred])))
    case EventLocked(event) =>
      (match event.status
       case Active =>
         // report the referrer's count: an ordinary read of the committed row
         Some(s.Finish(t, AlreadyActive(event,
           if event.referrer in s.db.users then s.db.users[event.referrer].activeCount else 0)))
       case Rejected => Some(s.Finish(t, NotPending(event)))
       case Pending =>
         // mark the event active: its new key is checked against those of all rows
         if s.Others(t, (o: Tx) => WritesKey(s.db, o, req.key)) then None
         else if KeyTaken(s.db, req) then Some(s.At(t, RolledBack))
         else Some(s.At(t, EventUpdated(MarkActive(event, req)))))
    case EventUpdated(event) =>
      // increment the referrer's count, which locks the user row
      if event.referrer !in s.db.users then Some(s.At(t, RolledBack))
      else if s.Others(t, (o: Tx) => o.HoldsUser(event.referrer)) then None
      else
        var row := s.db.users[event.referrer];
        Some(s.At(t, UserUpdated(event, row.(activeCount := row.activeCount + 1, updatedAt := req.now))))
    case UserUpdated(event, row) =>
      // insert the award unless the milestone is there
      var milestone := (row.userId, req.threshold);
      if row.activeCount < req.threshold then Some(s.At(t, ReadyToCommit(event, row, None)))
      else if req.threshold <= 0 then Some(s.At(t, RolledBack))
      else if s.Others(t, (o: Tx) => o.InsertedAward(milestone)) then None
      else if milestone in s.db.awards then Some(s.At(t, ReadyToCommit(event, row, None)))
      else Some(s.At(t, AwardInserted(event, row)))
    case AwardInserted(event, row) =>
      // extend the premium from the row as the increment returned it
      var until := Extended(row.premiumUntil, req.now, req.extension);
      Some(s.At(t, ReadyToCommit(event, row.(premiumUntil := Some(until)),
                                 Some(Award(row.userId, req.threshold, until)))))
    case ReadyToCommit(event, row, award) =>
      Some(s.Finish(t, Activated(event, row.activeCount, award)).(db := CommitWrites(s.db, tx)))
    case Finished(_) => None
    case RolledBack => None
  }

  /** One statement of some transaction, or the failure of one that is still running. */
  ghost predicate StepBy(s: System, t: nat, s': System) {
    && t < |s.txs|
    && (Advance(s, t) == Some(s') || (!s.txs[t].Over() && s' == s.At(t, RolledBack)))
  }

  ghost predicate Next(s: System, s': System) {
    exists t: nat :: StepBy(s, t, s')
  }

  function Start(db: Ledger, reqs: seq<Request>): System {
    System(db, seq(|reqs|, i requires 0 <= i < |reqs| => Tx(reqs[i], Begun)), [])
  }

  ghost predicate IsRun(run: seq<System>, db: Ledger, reqs: seq<Request>) {
    && run != []
    && run[0] == Start(db, reqs)
    && forall i :: 0 <= i < |run| - 1 ==> Next(run[i], run[i + 1])
  }

  function Last(run: seq<System>): System
    requires run != []
  {
    run[|run| - 1]
  }

  // ---------------------------------------------------------------- sequential meaning

  /** Running the requests of `order` one after the other, each atomically. */
  function Replay(db: Ledger, reqs: seq<Request>, order: seq<nat>): (Ledger, seq<Activation>)
    requires forall i :: 0 <= i < |order| ==> order[i] < |reqs|
    ensures |Replay(db, reqs, order).1| == |order|
  {
    if order == [] then (db, [])
    else
      var (db1, results) := Replay(db, reqs, order[..|order| - 1]);
      var (db2, result) := ActivateOnce(db1, reqs[order[|order| - 1]]);
      (db2, results + [result])
  }

  ghost predicate SerialOrder(db: Ledger, reqs: seq<Request>, s: System, order: seq<nat>) {
    && |s.txs| == |reqs|
    // exactly the finished transactions, each once
    && (forall i :: 0 <= i < |order| ==> order[i] < |reqs|)
    && (forall i, j :: 0 <= i < j < |order| ==> order[i] != order[j])
    && (forall t :: 0 <= t < |s.txs| ==> (t in order <==> s.txs[t].phase.Finished?))
    // the same database and the same results
    && (var (db', results) := Replay(db, reqs, order);
        && db' == s.db
        && (forall i :: 0 <= i < |order| ==> s.txs[order[i]].phase == Finished(results[i])))
  }

  // ---------------------------------------------------------------- invariants

  /** Every event has its referrer, and rows sit under their own key. */
  ghost predicate WellFormed(db: Ledger) {
    && (forall k :: k in db.events ==> db.events[k].referrer in db.users)
    && (forall u :: u in db.users ==> db.users[u].userId == u)
  }

  /** What a transaction has seen and written still fits the committed rows. */
  ghost predicate Current(db: Ledger, tx: Tx) {
    var referred := tx.req.referred;
    match tx.phase
    case EventLocked(event) => referred in db.events && db.events[referred] == event
    case EventUpdated(event) => StillPending(db, tx, event)
    case UserUpdated(event, row) => StillPending(db, tx, event) && row == Counted(db, tx, event)
    case AwardInserted(event, row) =>
      && StillPending(db, tx, event) && row == Counted(db, tx, event)
      && row.activeCount >= tx.req.threshold && (row.userId, tx.req.threshold) !in db.awards
    case ReadyToCommit(event, row, award) =>
      && StillPending(db, tx, event)
      && (var earns := row.activeCount >= tx.req.threshold && (row.userId, tx.req.threshold) !in db.awards;
          var counted := Counted(db, tx, event);
          if earns then
            var until := Extended(counted.premiumUntil, tx.req.now, tx.req.extension);
            row == counted.(premiumUntil := Some(until)) && award == Some(Award(row.userId, tx.req.threshold, until))
          else row == counted && award == None)
    case _ => true
  }

  ghost predicate StillPending(db: Ledger, tx: Tx, event: ReferralEvent) {
    && tx.req.referred in db.events
    && db.events[tx.req.referred].status.Pending?
    && event == MarkActive(db.events[tx.req.referred], tx.req)
    && event.referrer in db.users
  }

  function Counted(db: Ledger, tx: Tx, event: ReferralEvent): User
    requires event.referrer in db.users
  {
    var row := db.users[event.referrer];
    row.(activeCount := row.activeCount + 1, updatedAt := tx.req.now)
  }

  ghost predicate Exclusive(txs: seq<Tx>) {
    && (forall i, j, k :: 0 <= i < j < |txs| && txs[i].HoldsEvent(k) ==> !txs[j].HoldsEvent(k))
    && (forall i, j, u :: 0 <= i < j < |txs| && txs[i].HoldsUser(u) ==> !txs[j].HoldsUser(u))
  }

  ghost predicate Inv(s: System, db: Ledger, reqs: seq<Request>) {
    && WellFormed(s.db)
    && |s.txs| == |reqs|
    && (forall t :: 0 <= t < |s.txs| ==> s.txs[t].req == reqs[t] && Current(s.db, s.txs[t]))
    && Exclusive(s.txs)
    && SerialOrder(db, reqs, s, s.log)
  }

  /** A commit leaves what the other transactions have seen as it was. */
  lemma CommitKeepsOthers(db: Ledger, tx: Tx, other: Tx)
    requires WellFormed(db) && tx.phase.ReadyToCommit? && Current(db, tx) && Current(db, other)
    requires forall k :: tx.HoldsEvent(k) ==> !other.HoldsEvent(k)
    requires forall u :: tx.HoldsUser(u) ==> !other.HoldsUser(u)
    ensures Current(CommitWrites(db, tx), other)
  {
    assert tx.HoldsEvent(tx.req.referred) && tx.HoldsUser(tx.phase.row.userId);
    if other.WroteEvent() {
      assert other.HoldsEvent(other.req.referred);
    }
    if other.phase.UserUpdated? || other.phase.AwardInserted? || other.phase.ReadyToCommit? {
      assert other.HoldsUser(other.phase.row.userId);
    }
  }

  /** Once no other transaction has the row, taking it keeps locks exclusive. */
  lemma LocksStayExclusive(s: System, t: nat, phase: Phase)
    requires t < |s.txs| && Exclusive(s.txs)
    requires forall k, i ::
               0 <= i < |s.txs| && i != t && s.At(t, phase).txs[t].HoldsEvent(k) ==> !s.txs[i].HoldsEvent(k)
    requires forall u, i :: 0 <= i < |s.txs| && i != t && s.At(t, phase).txs[t].HoldsUser(u) ==> !s.txs[i].HoldsUser(u)
    ensures Exclusive(s.At(t, phase).txs)
  {
  }

  /** A step leaves its transaction with an event row that no other transaction holds ... */
  lemma EventLockIsFree(s: System, t: nat, s': System, i: nat, k: int)
    requires Exclusive(s.txs) && StepBy(s, t, s')
    requires i < |s.txs| && i != t && s'.txs[t].HoldsEvent(k)
    ensures !s.txs[i].HoldsEvent(k)
  {
    if s.txs[t].phase.Begun? {
      assert s'.txs[t].phase.EventLocked?;
    } else {
      assert s.txs[t].HoldsEvent(k);
    }
  }

  /** ... and with a user row that no other transaction holds. */
  lemma UserLockIsFree(s: System, t: nat, s': System, i: nat, u: int)
    requires Exclusive(s.txs) && StepBy(s, t, s')
    requires WellFormed(s.db) && Current(s.db, s.txs[t])
    requires i < |s.txs| && i != t && s'.txs[t].HoldsUser(u)
    ensures !s.txs[i].HoldsUser(u)
  {
    if s.txs[t].phase.EventUpdated? {
      assert s'.txs[t].phase.UserUpdated?;
    } else {
      assert s.txs[t].HoldsUser(u);
    }
  }

  lemma StepKeepsExclusive(s: System, t: nat, s': System)
    requires Exclusive(s.txs) && StepBy(s, t, s')
    requires forall i :: 0 <= i < |s.txs| ==> Current(s.db, s.txs[i])
    requires WellFormed(s.db)
    ensures Exclusive(s'.txs)
  {
    var phase := s'.txs[t].phase;
    assert s'.txs == s.At(t, phase).txs && s'.txs[t] == s.At(t, phase).txs[t];
    forall k, i | 0 <= i < |s.txs| && i != t && s'.txs[t].HoldsEvent(k) ensures !s.txs[i].HoldsEvent(k) {
      EventLockIsFree(s, t, s', i, k);
    }
    forall u, i | 0 <= i < |s.txs| && i != t && s'.txs[t].HoldsUser(u) ensures !s.txs[i].HoldsUser(u) {
      UserLockIsFree(s, t, s', i, u);
    }
    LocksStayExclusive(s, t, phase);
  }

  /** A transaction that takes effect extends the serial order by itself. */
  lemma FinishExtendsOrder(s: System, t: nat, s': System, db: Ledger, reqs: seq<Request>, result: Activation)
    requires SerialOrder(db, reqs, s, s.log) && t < |s.txs| && !s.txs[t].phase.Finished?
    requires s'.txs == s.At(t, Finished(result)).txs && s'.log == s.log + [t]
    requires ActivateOnce(s.db, reqs[t]) == (s'.db, result)
    ensures SerialOrder(db, reqs, s', s'.log)
  {
    assert s'.log[..|s'.log| - 1] == s.log;
    assert t !in s.log;
  }

  /** What a committing transaction writes is one atomic activation of the committed database. */
  lemma CommitIsAtomic(db: Ledger, tx: Tx)
    requires WellFormed(db) && tx.phase.ReadyToCommit? && Current(db, tx)
    ensures ActivateOnce(db, tx.req) ==
            (CommitWrites(db, tx), Activated(tx.phase.event, tx.phase.row.activeCount, tx.phase.award))
    ensures WellFormed(CommitWrites(db, tx))
  {
  }

  lemma StepKeepsOwn(s: System, t: nat, s': System)
    requires WellFormed(s.db) && StepBy(s, t, s') && Current(s.db, s.txs[t])
    ensures WellFormed(s'.db) && Current(s'.db, s'.txs[t])
    ensures s'.txs == s.At(t, s'.txs[t].phase).txs
    ensures if s'.txs[t].phase.Finished?
            then ActivateOnce(s.db, s.txs[t].req) == (s'.db, s'.txs[t].phase.result) && s'.log == s.log + [t]
            else s'.db == s.db && s'.log == s.log
  {
    if s.txs[t].phase.ReadyToCommit? {
      CommitIsAtomic(s.db, s.txs[t]);
    }
  }

  lemma StepKeepsOthers(s: System, t: nat, s': System)
    requires WellFormed(s.db) && StepBy(s, t, s') && Exclusive(s.txs)
    requires forall i :: 0 <= i < |s.txs| ==> Current(s.db, s.txs[i])
    ensures forall i :: 0 <= i < |s.txs| && i != t ==> s'.txs[i] == s.txs[i] && Current(s'.db, s'.txs[i])
  {
    StepKeepsOwn(s, t, s');
    if s.txs[t].phase.ReadyToCommit? && s'.txs[t].phase.Finished? {
      forall i | 0 <= i < |s.txs| && i != t ensures Current(s'.db, s.txs[i]) {
        CommitKeepsOthers(s.db, s.txs[t], s.txs[i]);
      }
    }
  }

  lemma StepKeepsInv(s: System, t: nat, s': System, db: Ledger, reqs: seq<Request>)
    requires Inv(s, db, reqs) && StepBy(s, t, s')
    ensures Inv(s', db, reqs)
  {
    StepKeepsExclusive(s, t, s');
    StepKeepsOwn(s, t, s');
    StepKeepsOthers(s, t, s');
    if s'.txs[t].phase.Finished? {
      FinishExtendsOrder(s, t, s', db, reqs, s'.txs[t].phase.result);
    }
  }

  lemma NextKeepsInv(s: System, s': System, db: Ledger, reqs: seq<Request>)
    requires Inv(s, db, reqs) && Next(s, s')
    ensures Inv(s', db, reqs)
  {
    var t: nat :| StepBy(s, t, s');
    StepKeepsInv(s, t, s', db, reqs);
  }

  lemma StartInv(db: Ledger, reqs: seq<Request>)
    requires WellFormed(db)
    ensures Inv(Start(db, reqs), db, reqs)
  {
  }

  lemma {:induction false} RunKeepsInv(run: seq<System>, db: Ledger, reqs: seq<Request>)
    requires WellFormed(db) && IsRun(run, db, reqs)
    ensures Inv(Last(run), db, reqs)
  {
    if |run| == 1 {
      StartInv(db, reqs);
    } else {
      var prior := run[..|run| - 1];
      RunKeepsInv(prior, db, reqs);
      assert Next(run[|run| - 2], run[|run| - 1]);
      NextKeepsInv(Last(prior), Last(run), db, reqs);
    }
  }

  // ---------------------------------------------------------------- main results

  /** Every interleaving is serializable: database, results and all. */
  lemma Serializable(run: seq<System>, db: Ledger, reqs: seq<Request>)
    requires WellFormed(db) && IsRun(run, db, reqs)
    ensures exists order :: SerialOrder(db, reqs, Last(run), order)
  {
    RunKeepsInv(run, db, reqs);
    assert SerialOrder(db, reqs, Last(run), Last(run).log);
  }

  /** No increment is lost: counts equal active events after every interleaving. */
  lemma NoLostIncrement(run: seq<System>, db: Ledger, reqs: seq<Request>)
    requires WellFormed(db) && Sound(db) && IsRun(run, db, reqs)
    ensures Sound(Last(run).db)
  {
    RunKeepsInv(run, db, reqs);
    ReplayKeepsSound(db, reqs, Last(run).log);
  }

  lemma {:induction false} ReplayKeepsSound(db: Ledger, reqs: seq<Request>, order: seq<nat>)
    requires Sound(db) && forall i :: 0 <= i < |order| ==> order[i] < |reqs|
    ensures Sound(Replay(db, reqs, order).0)
  {
    if order != [] {
      var prior := order[..|order| - 1];
      ReplayKeepsSound(db, reqs, prior);
      ApplyKeepsSound(Replay(db, reqs, prior).0, ActivateOp(reqs[order[|order| - 1]]));
    }
  }

  ghost predicate TookEffect(db: Ledger, req: Request, result: Activation) {
    result.Activated? ==>
      && req.referred in db.events && db.events[req.referred].status.Active?
      && (result.award.Some? ==> (result.award.value.referrer, result.award.value.milestone) in db.awards)
  }

  /** Two activations name different referred users and never award one milestone twice. */
  ghost predicate Independent(req1: Request, result1: Activation, req2: Request, result2: Activation) {
    result1.Activated? && result2.Activated? ==>
      && req1.referred != req2.referred
      && (result1.award.Some? && result2.award.Some? ==>
            (result1.award.value.referrer, result1.award.value.milestone)
            != (result2.award.value.referrer, result2.award.value.milestone))
  }

  lemma {:induction false} ReplayLasts(db: Ledger, reqs: seq<Request>, order: seq<nat>, a: nat)
    requires a < |order| && forall i :: 0 <= i < |order| ==> order[i] < |reqs|
    ensures TookEffect(Replay(db, reqs, order).0, reqs[order[a]], Replay(db, reqs, order).1[a])
  {
    if a < |order| - 1 {
      ReplayLasts(db, reqs, order[..|order| - 1], a);
    }
  }

  lemma {:induction false} ReplayNeverRepeats(db: Ledger, reqs: seq<Request>, order: seq<nat>, a: nat, b: nat)
    requires a < b < |order| && forall i :: 0 <= i < |order| ==> order[i] < |reqs|
    ensures Independent(reqs[order[a]], Replay(db, reqs, order).1[a], reqs[order[b]], Replay(db, reqs, order).1[b])
  {
    var prior := order[..|order| - 1];
    if b < |order| - 1 {
      ReplayNeverRepeats(db, reqs, prior, a, b);
    } else {
      ReplayLasts(db, reqs, prior, a);
    }
  }

  /** No event is activated twice and no milestone is awarded twice, in any interleaving. */
  lemma NothingHappensTwice(run: seq<System>, db: Ledger, reqs: seq<Request>, t1: nat, t2: nat)
    requires WellFormed(db) && IsRun(run, db, reqs)
    requires t1 < t2 < |Last(run).txs|
    requires Last(run).txs[t1].phase.Finished? && Last(run).txs[t2].phase.Finished?
    ensures Independent(Last(run).txs[t1].req, Last(run).txs[t1].phase.result, Last(run).txs[t2].req,
                        Last(run).txs[t2].phase.result)
  {
    RunKeepsInv(run, db, reqs);
    var order := Last(run).log;
    var a :| 0 <= a < |order| && order[a] == t1;
    var b :| 0 <= b < |order| && order[b] == t2;
    if a < b {
      ReplayNeverRepeats(db, reqs, order, a, b);
    } else {
      ReplayNeverRepeats(db, reqs, order, b, a);
    }
  }

  /** No deadlock: while a transaction is unfinished, some transaction can run its next statement. */
  lemma NeverStuck(run: seq<System>, db: Ledger, reqs: seq<Request>)
    requires WellFormed(db) && IsRun(run, db, reqs)
    requires exists t :: 0 <= t < |Last(run).txs| && !Last(run).txs[t].Over()
    ensures exists t :: 0 <= t < |Last(run).txs| && Advance(Last(run), t).Some?
  {
    RunKeepsInv(run, db, reqs);
    var s := Last(run);
    if t :| 0 <= t < |s.txs| && (s.txs[t].phase.UserUpdated? || s.txs[t].phase.AwardInserted?
                                 || s.txs[t].phase.ReadyToCommit?) {
      // holding the user row excludes a second inserter of the same milestone
      assert s.txs[t].HoldsUser(s.txs[t].phase.row.userId);
      assert Advance(s, t).Some?;
    } else if t :| 0 <= t < |s.txs| && s.txs[t].phase.EventUpdated? {
      assert Advance(s, t).Some?;
    } else if t :| 0 <= t < |s.txs| && s.txs[t].phase.EventLocked? {
      assert Advance(s, t).Some?;
    } else {
      var t :| 0 <= t < |s.txs| && !s.txs[t].Over();
      assert Advance(s, t).Some?;
    }
  }

  // ---------------------------------------------------------------- one event per qualifying key

  ghost predicate UniqueKeys(db: Ledger) {
    forall j, k :: j in db.events && k in db.events && j != k ==> db.events[j].key != db.events[k].key
  }

  /** A transaction that wrote its event is the only one with its key, committed or not. */
  ghost predicate KeysGuarded(s: System) {
    && UniqueKeys(s.db)
    && (forall t :: 0 <= t < |s.txs| && s.txs[t].WroteEvent() ==> !KeyTaken(s.db, s.txs[t].req))
    && (forall t, u :: 0 <= t < |s.txs| && 0 <= u < |s.txs| && t != u && s.txs[t].WroteEvent() && s.txs[u].WroteEvent()
          ==> s.txs[t].req.key != s.txs[u].req.key)
  }

  /** The event that a transaction wrote carries the key of its request. */
  lemma WrittenKey(db: Ledger, tx: Tx)
    requires Current(db, tx) && tx.WroteEvent()
    ensures tx.phase.event.key == tx.req.key
  {
  }

  /** Before it commits, a transaction only begins to guard a key that nobody has or guards. */
  lemma StepGuardsFreeKey(s: System, t: nat, s': System)
    requires KeysGuarded(s) && StepBy(s, t, s') && s'.db == s.db
    requires forall i :: 0 <= i < |s.txs| ==> Current(s.db, s.txs[i])
    ensures KeysGuarded(s')
  {
    var tx := s.txs[t];
    if s'.txs[t].WroteEvent() && !tx.WroteEvent() {
      assert tx.phase.EventLocked? && !KeyTaken(s.db, tx.req);
      assert !s.Others(t, (o: Tx) => WritesKey(s.db, o, tx.req.key));
      forall i | 0 <= i < |s.txs| && i != t && s.txs[i].WroteEvent() ensures s.txs[i].req.key != tx.req.key {
        WrittenKey(s.db, s.txs[i]);
        assert !WritesKey(s.db, s.txs[i], tx.req.key);
      }
    }
  }

  /** A commit puts the key under the transaction's own event, where no other event has it. */
  lemma CommitGuardsKeys(s: System, t: nat)
    requires KeysGuarded(s) && t < |s.txs| && s.txs[t].phase.ReadyToCommit? && Current(s.db, s.txs[t])
    ensures UniqueKeys(CommitWrites(s.db, s.txs[t]))
    ensures forall i :: 0 <= i < |s.txs| && i != t && s.txs[i].WroteEvent() ==>
              !KeyTaken(CommitWrites(s.db, s.txs[t]), s.txs[i].req)
  {
    WrittenKey(s.db, s.txs[t]);
    var db' := CommitWrites(s.db, s.txs[t]);
    forall i | 0 <= i < |s.txs| && i != t && s.txs[i].WroteEvent() ensures !KeyTaken(db', s.txs[i].req) {
      assert s.txs[i].req.key != s.txs[t].req.key && !KeyTaken(s.db, s.txs[i].req);
    }
  }

  lemma StepKeepsGuard(s: System, t: nat, s': System, db: Ledger, reqs: seq<Request>)
    requires Inv(s, db, reqs) && KeysGuarded(s) && StepBy(s, t, s')
    ensures KeysGuarded(s')
  {
    if s'.db == s.db {
      StepGuardsFreeKey(s, t, s');
    } else {
      assert s.txs[t].phase.ReadyToCommit?;
      CommitGuardsKeys(s, t);
    }
  }

  lemma {:induction false} RunKeepsGuard(run: seq<System>, db: Ledger, reqs: seq<Request>)
    requires WellFormed(db) && UniqueKeys(db) && IsRun(run, db, reqs)
    ensures KeysGuarded(Last(run))
  {
    if |run| > 1 {
      var prior := run[..|run| - 1];
      RunKeepsGuard(prior, db, reqs);
      RunKeepsInv(prior, db, reqs);
      assert Next(run[|run| - 2], run[|run| - 1]);
      var t: nat :| StepBy(Last(prior), t, Last(run));
      StepKeepsGuard(Last(prior), t, Last(run), db, reqs);
    }
  }

  /** What an activation wrote to its event stays written. */
  ghost predicate KeyWritten(db: Ledger, req: Request, result: Activation) {
    result.Activated? ==>
      && req.referred in db.events && db.events[req.referred].status == Active
      && db.events[req.referred].key == req.key && db.events[req.referred].activatedAt == Some(req.now)
  }

  lemma {:induction false} ReplayWritesKeys(db: Ledger, reqs: seq<Request>, order: seq<nat>, a: nat)
    requires a < |order| && forall i :: 0 <= i < |order| ==> order[i] < |reqs|
    ensures KeyWritten(Replay(db, reqs, order).0, reqs[order[a]], Replay(db, reqs, order).1[a])
  {
    var prior, req := order[..|order| - 1], reqs[order[|order| - 1]];
    var db1 := Replay(db, reqs, prior).0;
    ActivationWritesEvent(db1, req);
    ActivationOutcome(db1, req);
    if a < |prior| {
      ReplayWritesKeys(db, reqs, prior, a);
    }
  }

  /** In any interleaving the committed events have different keys, those of finished activations as requested. */
  lemma ActivationsKeepKeysUnique(run: seq<System>, db: Ledger, reqs: seq<Request>, t: nat)
    requires WellFormed(db) && UniqueKeys(db) && IsRun(run, db, reqs)
    requires t < |Last(run).txs| && Last(run).txs[t].phase.Finished?
    ensures UniqueKeys(Last(run).db)
    ensures KeyWritten(Last(run).db, Last(run).txs[t].req, Last(run).txs[t].phase.result)
  {
    RunKeepsInv(run, db, reqs);
    RunKeepsGuard(run, db, reqs);
    var order := Last(run).log;
    var a :| 0 <= a < |order| && order[a] == t;
    ReplayWritesKeys(db, reqs, order, a);
  }

  /** Hence no qualifying key activates two events, whatever the interleaving. */
  lemma OneActivationPerKey(run: seq<System>, db: Ledger, reqs: seq<Request>, t: nat, u: nat)
    requires WellFormed(db) && UniqueKeys(db) && IsRun(run, db, reqs)
    requires t < u < |Last(run).txs| && Last(run).txs[t].phase.Finished? && Last(run).txs[u].phase.Finished?
    requires Last(run).txs[t].phase.result.Activated? && Last(run).txs[u].phase.result.Activated?
    ensures Last(run).txs[t].req.key != Last(run).txs[u].req.key
  {
    NothingHappensTwice(run, db, reqs, t, u);
    ActivationsKeepKeysUnique(run, db, reqs, t);
    ActivationsKeepKeysUnique(run, db, reqs, u);
  }

  // ---------------------------------------------------------------- progress

  /** How far a transaction is. */
  function Progress(phase: Phase): nat {
    match phase
    case Begun => 0
    case EventLocked(_) => 1
    case EventUpdated(_) => 2
    case UserUpdated(_, _) => 3
    case AwardInserted(_, _) => 4
    case ReadyToCommit(_, _, _) => 5
    case Finished(_) => 6
    case RolledBack => 6
  }

  /** Every statement takes its transaction further and leaves the others where they are. */
  lemma StatementsProgress(s: System, t: nat)
    requires t < |s.txs| && Advance(s, t).Some?
    ensures var s' := Advance(s, t).value;
            && |s'.txs| == |s.txs| && Progress(s'.txs[t].phase) > Progress(s.txs[t].phase)
            && forall i :: 0 <= i < |s.txs| && i != t ==> s'.txs[i] == s.txs[i]
  {
  }

  /**
   A statement fails exactly when the key of the activation belongs to another event, when the
   referrer is missing, or when an award would be for a milestone below one.
   */
  lemma FailsOnlyForCause(s: System, t: nat)
    requires t < |s.txs| && Advance(s, t).Some?
    ensures var tx := s.txs[t];
            Advance(s, t).value.txs[t].phase == RolledBack <==>
            || (tx.phase.EventLocked? && tx.phase.event.status == Pending && KeyTaken(s.db, tx.req))
            || (tx.phase.EventUpdated? && tx.phase.event.referrer !in s.db.users)
            || (tx.phase.UserUpdated? && tx.phase.row.activeCount >= tx.req.threshold && tx.req.threshold <= 0)
  {
  }

  /** Transaction `tx` has to wait for `o`, by how far `o` has got and what it took. */
  ghost predicate WaitsFor(db: Ledger, tx: Tx, o: Tx) {
    var ahead := Progress(o.phase);
    && ahead < 6
    && match tx.phase
       case Begun => ahead >= 1 && tx.req.referred in db.events && o.req.referred == tx.req.referred
       case EventLocked(event) =>
         && ahead >= 2 && event.status == Pending
         && (o.phase.event.key == tx.req.key
             || (o.req.referred in db.events && db.events[o.req.referred].key == tx.req.key))
       case EventUpdated(event) => ahead >= 3 && event.referrer in db.users && o.phase.row.userId == event.referrer
       case UserUpdated(_, row) =>
         && ahead >= 4 && row.activeCount >= tx.req.threshold > 0
         && o.phase.row.userId == row.userId && o.req.threshold == tx.req.threshold
         && (o.phase.ReadyToCommit? ==> o.phase.award.Some?)
       case _ => false
  }

  /**
   A statement waits exactly for another unfinished transaction: one that locked the same event,
   one whose event took the key or gives it up, one that counted for the same referrer, or one
   that inserted the same award.
   */
  lemma WaitsIff(s: System, t: nat)
    requires t < |s.txs| && !s.txs[t].Over()
    ensures Advance(s, t) == None <==>
            exists i :: 0 <= i < |s.txs| && i != t && WaitsFor(s.db, s.txs[t], s.txs[i])
  {
  }
}
