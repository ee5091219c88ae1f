/** dbExecutive.Mutate: checks a batch of row changes, runs it on the ctldb tables and logs it, all in one
    transaction together with the writer's cookie and usage. */
module Executive {
  import opened Wrappers
  import opened Tables
  import opened Ledger
  import opened TableEffects
  import opened Mutators
  import opened CtlDb
  import opened Limiter
  import opened SqlText
  import opened Names
  import Interleaving

  const LIMIT_MAX_MUTATE_REQUEST_COUNT := 100
  const LIMIT_MAX_DML_SIZE := 768 * 1024

  datatype MutationRequest = MutationRequest(table: string, delete: bool, values: map<string, Value>)

  /** The arguments, with names already normalised, and what the call reads from the clocks. */
  datatype Call = Call(
    who: Credentials, family: string, cookie: Cookie, check: Option<Cookie>,
    requests: seq<MutationRequest>, now: int, timestamp: int)

  datatype MutateError =
    | PayloadTooLarge | FetchTablesError | TableNotFound | BeginError | TableTooLarge
    | LimiterError | RateLimitExceeded | LockError | CookieFailed(error: CookieError) | LogBeginError
    | MissingField | DmlTooLarge | ExecError | LogError | LogCommitError | CommitError

  /** The first call that fails for a reason outside the model. */
  datatype MutateFault =
    | NoFault | FetchFails | BeginFails | SizeCheckFails
    | LimiterFails(f: LimiterFault) | LockFails | CookieFails(k: CookieFault)
    | LogBeginFails(how: AddFault) | ExecFails(i: nat) | LogFails(i: nat, how: AddFault) | LogCommitFails(how: AddFault)
    | CommitFails

  /** How logging BEGIN, request i, and COMMIT fail, if they do. */
  function BeginFault(fault: MutateFault): AddFault {
    if fault.LogBeginFails? then fault.how else NoAddFault
  }

  function RowFault(fault: MutateFault, i: nat): AddFault {
    if fault.LogFails? && fault.i == i then fault.how else NoAddFault
  }

  function EndFault(fault: MutateFault): AddFault {
    if fault.LogCommitFails? then fault.how else NoAddFault
  }

  /** fetchMetaTablesByName: it asks for at least one table, and for every table it finds it
      must be able to decode the name. */
  function FetchTables(tables: Tables, c: Call, fault: MutateFault): Option<MutateError> {
    if |c.requests| == 0 || fault.FetchFails? then Some(FetchTablesError)
    else if exists i :: 0 <= i < |c.requests| && LDBTableName(c.family, c.requests[i].table) in tables
                        && DecodeLDBTableName(LDBTableName(c.family, c.requests[i].table)).Err?
    then Some(FetchTablesError)
    else if exists i :: 0 <= i < |c.requests| && LDBTableName(c.family, c.requests[i].table) !in tables
    then Some(TableNotFound)
    else None
  }

  predicate Found(tables: Tables, c: Call) {
    forall i :: 0 <= i < |c.requests| ==> LDBTableName(c.family, c.requests[i].table) in tables
  }

  /** valuesByOrder. */
  function ValuesByOrder(values: map<string, Value>, order: seq<string>): Option<seq<Value>> {
    if order == [] then Some([])
    else if order[0] !in values then None
    else
      match ValuesByOrder(values, order[1..])
      case None => None
      case Some(rest) => Some([values[order[0]]] + rest)
  }

  lemma {:induction false} ValuesAreInOrder(values: map<string, Value>, order: seq<string>)
    ensures ValuesByOrder(values, order).Some? <==> forall i :: 0 <= i < |order| ==> order[i] in values
    ensures ValuesByOrder(values, order).Some? ==>
              |ValuesByOrder(values, order).value| == |order| &&
              forall i :: 0 <= i < |order| ==> ValuesByOrder(values, order).value[i] == values[order[i]]
  {
    if order != [] {
      ValuesAreInOrder(values, order[1..]);
      forall i | 0 < i < |order| ensures order[i] == order[1..][i - 1] {}
    }
  }

  /** The statement for one request. */
  function Plan(tables: Tables, family: string, r: MutationRequest): Result<Dml, MutateError>
    requires LDBTableName(family, r.table) in tables
  {
    var name := LDBTableName(family, r.table);
    var order := if r.delete then tables[name].key else tables[name].columns;
    match ValuesByOrder(r.values, order)
    case None => Err(MissingField)
    case Some(values) =>
      var d := if r.delete then Delete(name, order, values) else Upsert(name, order, values);
      if !Paired(Row(d)) || |Text(Row(d))| > LIMIT_MAX_DML_SIZE then Err(DmlTooLarge) else Ok(d)
  }

  /** Planning, executing and logging request i on these tables. */
  function WriteOne(schemas: Tables, tables: Tables, c: Call, fault: MutateFault, i: nat)
    : Result<(Tables, Dml), MutateError>
    requires i < |c.requests| && Found(schemas, c)
  {
    match Plan(schemas, c.family, c.requests[i])
    case Err(e) => Err(e)
    case Ok(d) =>
      if fault == ExecFails(i) || Exec(tables, d).None? then Err(ExecError)
      else if RowFault(fault, i) != NoAddFault then Err(LogError)
      else Ok((Exec(tables, d).value, d))
  }

  /** The statements of the first n requests and the tables after them; or the error of the first
      request that cannot be planned, executed or logged. */
  function WriteFirst(schemas: Tables, tables: Tables, c: Call, fault: MutateFault, n: nat)
    : Result<(Tables, seq<Dml>), MutateError>
    requires n <= |c.requests| && Found(schemas, c)
  {
    if n == 0 then Ok((tables, []))
    else
      match WriteFirst(schemas, tables, c, fault, n - 1)
      case Err(e) => Err(e)
      case Ok((t, ds)) =>
        match WriteOne(schemas, t, c, fault, n - 1)
        case Err(e) => Err(e)
        case Ok((t', d)) => Ok((t', ds + [d]))
  }

  /** The checks inside the transaction that come before the first ledger row. */
  function Gate(d: CtlData, c: Call, bucket: int, limit: int, fault: MutateFault): Option<MutateError> {
    if fault.SizeCheckFails? then Some(TableTooLarge)
    else if fault.LimiterFails? && !fault.f.NoLimiterFault? && |c.requests| > 0 then Some(LimiterError)
    else if !Allowed(d.usage, c.who.writer, bucket, |c.requests|, limit) then Some(RateLimitExceeded)
    else if fault.LockFails? then Some(LockError)
    else
      match CookieOutcome(Update(d.mutators, c.who, c.cookie, c.check),
                          if fault.CookieFails? then fault.k else NoCookieFault)
      case Some(e) => Some(CookieFailed(e))
      case None => None
  }

  /** Writing the whole batch with its markers. */
  function WriteBatch(schemas: Tables, tables: Tables, c: Call, fault: MutateFault)
    : Result<(Tables, seq<Dml>), MutateError>
    requires Found(schemas, c)
  {
    if |c.requests| > 1 && BeginFault(fault) != NoAddFault then Err(LogBeginError)
    else
      match WriteFirst(schemas, tables, c, fault, |c.requests|)
      case Err(e) => Err(e)
      case Ok(w) => if |c.requests| > 1 && EndFault(fault) != NoAddFault then Err(LogCommitError) else Ok(w)
  }

  /** The batch that the call commits, or its error: the first check that fails, in order. */
  function Verdict(d: CtlData, c: Call, bucket: int, limit: int, fault: MutateFault): Result<seq<Dml>, MutateError> {
    if |c.requests| > LIMIT_MAX_MUTATE_REQUEST_COUNT then Err(PayloadTooLarge)
    else if FetchTables(d.tables, c, fault).Some? then Err(FetchTables(d.tables, c, fault).value)
    else if fault.BeginFails? then Err(BeginError)
    else if Gate(d, c, bucket, limit, fault).Some? then Err(Gate(d, c, bucket, limit, fault).value)
    else
      match WriteBatch(d.tables, d.tables, c, fault)
      case Err(e) => Err(e)
      case Ok((_, ds)) => if fault.CommitFails? then Err(CommitError) else Ok(ds)
  }

  ghost function RequestOf(c: Call, ds: seq<Dml>): Interleaving.Request {
    Interleaving.Request(c.who, c.cookie, c.check, ds)
  }

  /** The part of the ctldb that the interleaved machine has. */
  ghost function AsCtl(d: CtlData): Interleaving.Ctl {
    Interleaving.Ctl(d.tables, d.ledger, d.mutators, 0, None, map[])
  }

  lemma WriteOneRuns(schemas: Tables, tables: Tables, c: Call, fault: MutateFault, i: nat)
    requires i < |c.requests| && Found(schemas, c) && WriteOne(schemas, tables, c, fault, i).Ok?
    ensures
      var (t, d) := WriteOne(schemas, tables, c, fault, i).value;
      Exec(tables, d) == Some(t) && Plan(schemas, c.family, c.requests[i]) == Ok(d)
  {
    hide Text;
  }

  lemma WriteFirstOneMore(schemas: Tables, tables: Tables, c: Call, fault: MutateFault, n: nat)
    requires 0 < n <= |c.requests| && Found(schemas, c) && WriteFirst(schemas, tables, c, fault, n).Ok?
    ensures WriteFirst(schemas, tables, c, fault, n - 1).Ok?
    ensures
      var (t0, ds0) := WriteFirst(schemas, tables, c, fault, n - 1).value;
      && WriteOne(schemas, t0, c, fault, n - 1).Ok?
      && var (t, d) := WriteOne(schemas, t0, c, fault, n - 1).value;
         WriteFirst(schemas, tables, c, fault, n) == Ok((t, ds0 + [d]))
  {
    hide Text, Plan, Exec, WriteOne, Found;
  }

  lemma WriteFirstNone(schemas: Tables, tables: Tables, c: Call, fault: MutateFault)
    requires Found(schemas, c)
    ensures WriteFirst(schemas, tables, c, fault, 0) == Ok((tables, [])) && ExecAll(tables, []) == Some(tables)
  {
    hide Text, Plan, Exec, WriteOne, Found;
  }

  lemma {:induction false} WriteFirstRuns(schemas: Tables, tables: Tables, c: Call, fault: MutateFault, n: nat)
    requires n <= |c.requests| && Found(schemas, c) && WriteFirst(schemas, tables, c, fault, n).Ok?
    ensures
      var (t, ds) := WriteFirst(schemas, tables, c, fault, n).value;
      && |ds| == n && ExecAll(tables, ds) == Some(t)
      && forall i :: 0 <= i < n ==> Plan(schemas, c.family, c.requests[i]) == Ok(ds[i])
  {
    hide *;
    if n == 0 {
      WriteFirstNone(schemas, tables, c, fault);
    } else {
      WriteFirstOneMore(schemas, tables, c, fault, n);
      WriteFirstRuns(schemas, tables, c, fault, n - 1);
      var (t0, ds0) := WriteFirst(schemas, tables, c, fault, n - 1).value;
      WriteOneRuns(schemas, t0, c, fault, n - 1);
      ExecAllOneMore(tables, ds0, WriteOne(schemas, t0, c, fault, n - 1).value.1);
    }
  }

  lemma WriteFirstCounts(schemas: Tables, tables: Tables, c: Call, fault: MutateFault, n: nat)
    requires n <= |c.requests| && Found(schemas, c) && WriteFirst(schemas, tables, c, fault, n).Ok?
    ensures |WriteFirst(schemas, tables, c, fault, n).value.1| == n
  {
    hide *;
    WriteFirstRuns(schemas, tables, c, fault, n);
  }

  /** One step of the loop over the requests. */
  lemma WriteFirstNext(schemas: Tables, tables: Tables, c: Call, fault: MutateFault, n: nat)
    requires n < |c.requests| && Found(schemas, c)
    ensures WriteFirst(schemas, tables, c, fault, n).Ok? ==>
              var (t, ds) := WriteFirst(schemas, tables, c, fault, n).value;
              WriteFirst(schemas, tables, c, fault, n + 1) ==
              match WriteOne(schemas, t, c, fault, n)
              case Err(e) => Err(e)
              case Ok((t', d)) => Ok((t', ds + [d]))
  {
    hide Text, Plan, Exec, WriteOne, Found;
  }

  lemma {:induction false} WriteFirstFails(schemas: Tables, tables: Tables, c: Call, fault: MutateFault, n: nat)
    requires n <= |c.requests| && Found(schemas, c) && WriteFirst(schemas, tables, c, fault, n).Err?
    ensures WriteFirst(schemas, tables, c, fault, |c.requests|) == WriteFirst(schemas, tables, c, fault, n)
    decreases |c.requests| - n
  {
    hide Text, WriteOne;
    if n < |c.requests| {
      WriteFirstFails(schemas, tables, c, fault, n + 1);
    }
  }

  class DbExecutive {
    const db: CtlDatabase
    const limiter: DbLimiter

    constructor (db: CtlDatabase, limiter: DbLimiter)
      ensures this.db == db && this.limiter == limiter
    {
      this.db, this.limiter := db, limiter;
    }

    /** Executes and logs one request. */
    method WriteRequest(c: Call, i: nat, dlw: DmlLedgerWriter, fault: MutateFault) returns (r: Result<Dml, MutateError>)
      requires db.open.Some? && dlw.db == db && Found(db.committed.tables, c) && i < |c.requests|
      modifies db`open, db`counter
      ensures db.open.Some? && db.counter >= old(db.counter)
      ensures
        var was := old(db.open).value;
        match WriteOne(db.committed.tables, was.tables, c, fault, i)
        case Err(e) => r == Err(e)
        case Ok((t, d)) =>
          && r == Ok(d) && db.counter == old(db.counter) + 1
          && db.open.value ==
             was.(tables := t, ledger := was.ledger + [LedgerRow(old(db.counter), c.timestamp, Row(d))])
    {
      var planned := Plan(db.committed.tables, c.family, c.requests[i]);
      if planned.Err? {
        return Err(planned.error);
      }
      var executed := Exec(db.open.value.tables, planned.value);
      if fault == ExecFails(i) || executed.None? {
        return Err(ExecError);
      }
      db.open := Some(db.open.value.(tables := executed.value));
      var seqNo := dlw.Add(Row(planned.value), c.timestamp, RowFault(fault, i));
      if seqNo.None? {
        return Err(LogError);
      }
      return Ok(planned.value);
    }

    method WriteRequests(c: Call, dlw: DmlLedgerWriter, fault: MutateFault)
      returns (r: Result<seq<Dml>, MutateError>, ghost rows: seq<LedgerRow>)
      requires db.open.Some? && dlw.db == db && Found(db.committed.tables, c)
      modifies db`open, db`counter
      ensures db.open.Some? && db.counter >= old(db.counter)
      ensures
        var was := old(db.open).value;
        match WriteFirst(db.committed.tables, was.tables, c, fault, |c.requests|)
        case Err(e) => r == Err(e)
        case Ok((t, ds)) =>
          && r == Ok(ds) && db.counter == old(db.counter) + |rows|
          && db.open.value == was.(tables := t, ledger := was.ledger + rows)
          && Logged(rows, ds, old(db.counter))
    {
      hide Text, Plan, Exec, WriteOne, WriteFirst, Found;
      ghost var schemas, was, counter := db.committed.tables, db.open.value, db.counter;
      WriteFirstNone(schemas, was.tables, c, fault);
      rows := [];
      var ds: seq<Dml> := [];
      assert was.ledger + [] == was.ledger;
      for i := 0 to |c.requests|
        invariant db.open.Some? && |ds| == |rows| == i
        invariant WriteFirst(schemas, was.tables, c, fault, i) == Ok((db.open.value.tables, ds))
        invariant db.open.value == was.(tables := db.open.value.tables, ledger := was.ledger + rows)
        invariant Logged(rows, ds, counter)
        invariant db.counter == counter + i
      {
        WriteFirstNext(schemas, was.tables, c, fault, i);
        ghost var seqNo := db.counter;
        var one := WriteRequest(c, i, dlw, fault);
        if one.Err? {
          WriteFirstFails(schemas, was.tables, c, fault, i + 1);
          return Err(one.error), rows;
        }
        rows := rows + [LedgerRow(seqNo, c.timestamp, Row(one.value))];
        ds := ds + [one.value];
      }
      r := Ok(ds);
    }

    /** Rate limit, ledger lock and cookie check. */
    method PassGate(c: Call, fault: MutateFault) returns (err: Option<MutateError>)
      requires db.open.Some?
      modifies db`open
      ensures err == Gate(old(db.open).value, c, PeriodEpoch(c.now, limiter.period),
                          limiter.LimitForWriter(c.who.writer), fault)
      ensures err.None? ==>
                var was := old(db.open).value;
                && Update(was.mutators, c.who, c.cookie, c.check).Ok?
                && db.open == Some(was.(
                     usage := Charge(was.usage, c.who.writer, PeriodEpoch(c.now, limiter.period), |c.requests|),
                     mutators := Update(was.mutators, c.who, c.cookie, c.check).value))
    {
      if fault.SizeCheckFails? {
        return Some(TableTooLarge);
      }
      var allowed := limiter.CheckWriterRates(db, c.who.writer, |c.requests|, c.now,
                                              if fault.LimiterFails? then fault.f else NoLimiterFault);
      if allowed.None? {
        return Some(LimiterError);
      }
      if !allowed.value {
        return Some(RateLimitExceeded);
      }
      // the ledger lock: from here on no other Mutate can log
      if fault.LockFails? {
        return Some(LockError);
      }
      var ms := new MutatorStore(db);
      var failed := ms.Update(c.who, c.cookie, c.check, if fault.CookieFails? then fault.k else NoCookieFault);
      return if failed.Some? then Some(CookieFailed(failed.value)) else None;
    }

    /** The requests, between markers if there is more than one. */
    method LogBatch(c: Call, fault: MutateFault) returns (r: Result<seq<Dml>, MutateError>, ghost rows: seq<LedgerRow>)
      requires db.open.Some? && Found(db.committed.tables, c) && 0 < |c.requests|
      modifies db`open, db`counter
      ensures db.counter >= old(db.counter)
      ensures
        var was := old(db.open).value;
        match WriteBatch(db.committed.tables, was.tables, c, fault)
        case Err(e) => r == Err(e)
        case Ok((t, ds)) =>
          && r == Ok(ds)
          && db.open == Some(was.(tables := t, ledger := was.ledger + rows))
          && IsBlock(rows, ds) && rows != [] && rows[0].seqNo == old(db.counter)
    {
      hide Text, Plan, Exec, ExecAll, WriteOne, WriteFirst, IsBlock, Found;
      ghost var schemas, was, counter := db.committed.tables, db.open.value, db.counter;
      var dlw := new DmlLedgerWriter(db);
      ghost var lead: seq<LedgerRow> := [];
      if |c.requests| > 1 {
        var began := dlw.Add(TxBegin, c.timestamp, BeginFault(fault));
        if began.None? {
          return Err(LogBeginError), [];
        }
        lead := [LedgerRow(began.value, c.timestamp, TxBegin)];
      }
      ghost var body;
      r, body := WriteRequests(c, dlw, fault);
      if r.Err? {
        return r, [];
      }
      WriteFirstCounts(schemas, was.tables, c, fault, |c.requests|);
      rows := lead + body;
      RowsAssoc(was.ledger, lead, body);
      if |c.requests| > 1 {
        assert db.open.value.ledger == was.ledger + rows;
        var ended := dlw.Add(TxEnd, c.timestamp, EndFault(fault));
        if ended.None? {
          return Err(LogCommitError), [];
        }
        ghost var last := LedgerRow(ended.value, c.timestamp, TxEnd);
        RowsAssoc(was.ledger, rows, [last]);
        BlockOfMany(lead[0], body, last, r.value, counter);
        rows := rows + [last];
      } else {
        assert rows == body && was.ledger + [] == was.ledger;
        BlockOfOne(body, r.value, counter);
      }
    }

    method Mutate(c: Call, fault: MutateFault) returns (err: Option<MutateError>)
      requires db.open.None?
      modifies db
      ensures db.open.None? && db.counter >= old(db.counter)
      ensures
        var bucket := PeriodEpoch(c.now, limiter.period);
        var v := Verdict(old(db.committed), c, bucket, limiter.LimitForWriter(c.who.writer), fault);
        && err == (if v.Err? then Some(v.error) else None)
        && (err.None? ==> CommittedAs(old(db.committed), c, bucket, v.value, old(db.counter), db.committed))
      ensures err.Some? ==> db.committed == old(db.committed)
      // the usage moves as one event of the rate accounting
      ensures db.committed.usage == After(old(db.committed).usage, limiter.period,
                Mutated(c.who.writer, c.now, |c.requests|, limiter.LimitForWriter(c.who.writer), err.None?))
    {
      hide Text, Plan, Exec, ExecAll, WriteOne, WriteFirst, WriteBatch, IsBlock;
      hide FetchTables, Gate, Update, CommittedAs, Found;
      if |c.requests| > LIMIT_MAX_MUTATE_REQUEST_COUNT {
        return Some(PayloadTooLarge);
      }
      var fetched := FetchTables(db.committed.tables, c, fault);
      if fetched.Some? {
        return fetched;
      }
      var began := db.Begin(fault.BeginFails?);
      if !began {
        return Some(BeginError);
      }
      FetchedAll(db.committed.tables, c, fault);
      ghost var was := db.committed;
      err := PassGate(c, fault);
      if err.Some? {
        db.Rollback();
        return err;
      }
      var logged;
      ghost var rows;
      logged, rows := LogBatch(c, fault);
      if logged.Err? {
        db.Rollback();
        return Some(logged.error);
      }
      var ok := db.Commit(fault.CommitFails?);
      if !ok {
        return Some(CommitError);
      }
      PassedIsAllowed(was, c, PeriodEpoch(c.now, limiter.period), limiter.LimitForWriter(c.who.writer), fault);
      BatchIsCommitted(was, c, PeriodEpoch(c.now, limiter.period), fault, logged.value, rows, db.committed);
      return None;
    }
  }

  lemma FetchedAll(tables: Tables, c: Call, fault: MutateFault)
    requires FetchTables(tables, c, fault).None?
    ensures Found(tables, c) && |c.requests| > 0
  {
  }

  /** The names of a call, as normalisation leaves them. */
  predicate NormalNames(c: Call) {
    IsFamily(c.family) && forall i :: 0 <= i < |c.requests| ==> IsTable(c.requests[i].table)
  }

  lemma TableNameDecodes(c: Call, i: nat)
    requires NormalNames(c) && i < |c.requests|
    ensures c.family != ""
    ensures DecodeLDBTableName(LDBTableName(c.family, c.requests[i].table)).Err? <==> c.family[|c.family| - 1] == '_'
  {
    ValidName(c.family, MAX_FAMILY_NAME_LENGTH);
    DecodeInvertsEncode(c.family, c.requests[i].table);
  }

  /** Exactly when the metadata of every table is found. A family name that ends in an underscore is valid, and
      a table of such a family can be there, but Mutate never gets past this point with it. */
  lemma TablesAreFetchedExactlyWhen(tables: Tables, c: Call, fault: MutateFault)
    requires NormalNames(c)
    ensures FetchTables(tables, c, fault).None? <==>
            c.requests != [] && !fault.FetchFails? && Found(tables, c) && c.family[|c.family| - 1] != '_'
  {
    hide DecodeLDBTableName, NormalNames, LDBTableName;
    forall i | 0 <= i < |c.requests|
      ensures c.family != ""
      ensures DecodeLDBTableName(LDBTableName(c.family, c.requests[i].table)).Err? <==> c.family[|c.family| - 1] == '_'
    {
      TableNameDecodes(c, i);
    }
    if c.requests != [] && Found(tables, c) {
      assert LDBTableName(c.family, c.requests[0].table) in tables;
    }
  }

  /** So every Mutate on such a family fails, whatever it asks for. */
  lemma UnderscoreFamiliesAlwaysFail(d: CtlData, c: Call, bucket: int, limit: int, fault: MutateFault)
    requires NormalNames(c) && c.family[|c.family| - 1] == '_'
    ensures Verdict(d, c, bucket, limit, fault).Err?
  {
    hide FetchTables, Gate, WriteBatch, IsFamily, IsTable;
    TablesAreFetchedExactlyWhen(d.tables, c, fault);
  }

  /** Such a name exists, and a table of it can stand in the ctldb: the check for a missing table would pass. */
  lemma AnUnderscoreFamily(c: Call, bucket: int, limit: int)
    requires c.family == "fam_" && |c.requests| == 1 && c.requests[0].table == "tab"
    ensures NormalNames(c)
    ensures
      var d := CtlData(map["fam____tab" := Table(["id"], ["id"], map[])], [], map[], map[]);
      Found(d.tables, c) && Verdict(d, c, bucket, limit, NoFault) == Err(FetchTablesError)
  {
    hide DecodeLDBTableName, NewFamilyName, NewTableName, Gate, WriteBatch;
    UnderscoreNames();
    assert "fam_" + "___" + "tab" == "fam____tab";
    DecodeInvertsEncode("fam_", "tab");
  }

  /** Everything that comes before the cookie check passes, and no SQL call of the check itself fails. */
  predicate CookieIsChecked(d: CtlData, c: Call, bucket: int, limit: int, fault: MutateFault) {
    && |c.requests| <= LIMIT_MAX_MUTATE_REQUEST_COUNT && FetchTables(d.tables, c, fault).None?
    && !fault.BeginFails? && !fault.SizeCheckFails? && !fault.LockFails?
    && (fault.LimiterFails? ==> fault.f.NoLimiterFault?) && (fault.CookieFails? ==> fault.k.NoCookieFault?)
    && Allowed(d.usage, c.who.writer, bucket, |c.requests|, limit)
  }

  /** A writer that the ctldb does not know, or that gives another secret than it registered with, never commits
      and is never told of a cookie conflict. It is told that it was not found exactly when the cookie is
      checked and neither cookie is too long. */
  lemma UnknownWritersAreNotFound(d: CtlData, c: Call, bucket: int, limit: int, fault: MutateFault)
    requires c.who.writer !in d.mutators || d.mutators[c.who.writer].secret != c.who.secret
    ensures Verdict(d, c, bucket, limit, fault).Err?
    ensures Verdict(d, c, bucket, limit, fault).error != CookieFailed(CookieConflict)
    ensures Verdict(d, c, bucket, limit, fault).error == CookieFailed(WriterNotFound) <==>
            && CookieIsChecked(d, c, bucket, limit, fault)
            && |c.cookie| <= LIMIT_WRITER_COOKIE_SIZE
            && (c.check.Some? ==> |c.check.value| <= LIMIT_WRITER_COOKIE_SIZE)
  {
    hide DecodeLDBTableName, WriteFirst, Allowed;
  }

  lemma PassedIsAllowed(d: CtlData, c: Call, bucket: int, limit: int, fault: MutateFault)
    requires Gate(d, c, bucket, limit, fault).None?
    ensures Allowed(d.usage, c.who.writer, bucket, |c.requests|, limit)
  {
  }

  lemma BatchIsCommitted(d: CtlData, c: Call, bucket: int, fault: MutateFault, ds: seq<Dml>, rows: seq<LedgerRow>,
      d': CtlData)
    requires Found(d.tables, c) && rows != [] && IsBlock(rows, ds)
    requires WriteBatch(d.tables, d.tables, c, fault) == Ok((d'.tables, ds))
    requires Update(d.mutators, c.who, c.cookie, c.check) == Ok(d'.mutators)
    requires d'.ledger == d.ledger + rows
    requires d'.usage == Charge(d.usage, c.who.writer, bucket, |c.requests|)
    ensures CommittedAs(d, c, bucket, ds, rows[0].seqNo, d')
  {
    hide Text;
    WriteFirstRuns(d.tables, d.tables, c, fault, |c.requests|);
    assert d'.ledger[|d.ledger|..] == rows;
  }

  /** The rows log these row statements with numbers from counter on. */
  ghost predicate Logged(rows: seq<LedgerRow>, ds: seq<Dml>, counter: int) {
    && |rows| == |ds|
    && forall i :: 0 <= i < |rows| ==> rows[i].stmt == Row(ds[i]) && rows[i].seqNo == counter + i
  }

  lemma RowsAssoc(a: seq<LedgerRow>, b: seq<LedgerRow>, c: seq<LedgerRow>)
    ensures (a + b) + c == a + (b + c)
  {
  }

  lemma BlockOfOne(body: seq<LedgerRow>, ds: seq<Dml>, counter: int)
    requires |ds| == 1 && Logged(body, ds, counter)
    ensures IsBlock(body, ds) && body != [] && body[0].seqNo == counter
  {
  }

  lemma BlockOfMany(begin: LedgerRow, body: seq<LedgerRow>, end: LedgerRow, ds: seq<Dml>, counter: int)
    requires |ds| > 1 && Logged(body, ds, counter + 1)
    requires begin.stmt == TxBegin && begin.seqNo == counter
    requires end.stmt == TxEnd && end.seqNo == counter + |ds| + 1
    ensures
      var rows := [begin] + body + [end];
      IsBlock(rows, ds) && rows != [] && rows[0].seqNo == counter
  {
    var rows := [begin] + body + [end];
    forall i | 0 <= i < |rows| ensures rows[i].stmt == LogAt(ds, i) && rows[i].seqNo == counter + i {
      if 0 < i <= |ds| {
        assert rows[i] == body[i - 1];
      }
    }
  }

  /** What a committed Mutate of the batch ds leaves: the cookie stored, the usage charged, the batch run on
      the tables, and one block for it at the end of the ledger, numbered from the counter. */
  ghost predicate CommittedAs(d: CtlData, c: Call, bucket: int, ds: seq<Dml>, counter: int, d': CtlData) {
    && |d.ledger| < |d'.ledger| && d.ledger == d'.ledger[..|d.ledger|]
    && IsBlock(d'.ledger[|d.ledger|..], ds) && d'.ledger[|d.ledger|].seqNo == counter
    && |ds| == |c.requests| && Found(d.tables, c)
    && (forall i :: 0 <= i < |ds| ==> Plan(d.tables, c.family, c.requests[i]) == Ok(ds[i]))
    && ExecAll(d.tables, ds) == Some(d'.tables)
    && Update(d.mutators, c.who, c.cookie, c.check) == Ok(d'.mutators)
    && d'.usage == Charge(d.usage, c.who.writer, bucket, |c.requests|)
  }

  /** A serial Mutate is the indivisible Mutate to which the interleaved ones reduce, as long as the
      counter is above the committed rows. */
  lemma SerialMutateIsAtomic(d: CtlData, c: Call, bucket: int, ds: seq<Dml>, counter: int, d': CtlData)
    requires CommittedAs(d, c, bucket, ds, counter, d') && counter > LastSeq(d.ledger) >= 0
    ensures Interleaving.AtomicMutate(AsCtl(d), RequestOf(c, ds), d'.ledger[|d.ledger|..], AsCtl(d'))
  {
    hide Text, Plan, Exec, Update;
    assert d'.ledger == d.ledger + d'.ledger[|d.ledger|..];
  }

  /** The columns and keys of every table have valid names. */
  ghost predicate ValidSchemas(tables: Tables) {
    forall name :: name in tables ==>
      (forall i :: 0 <= i < |tables[name].columns| ==> IsField(tables[name].columns[i])) &&
      (forall i :: 0 <= i < |tables[name].key| ==> IsField(tables[name].key[i]))
  }

  lemma PlannedIsPrintable(tables: Tables, family: string, r: MutationRequest)
    requires IsFamily(family) && IsTable(r.table) && ValidSchemas(tables)
    requires LDBTableName(family, r.table) in tables && Plan(tables, family, r).Ok?
    ensures Paired(Row(Plan(tables, family, r).value)) && ValidNames(Row(Plan(tables, family, r).value))
  {
    hide Text;
  }

  /** The text that a committed Mutate puts in the ledger's statement column is, row by row, read back as the
      statement it executed, or as the marker it wrote. */
  lemma LoggedTextReadsBack(d: CtlData, c: Call, bucket: int, ds: seq<Dml>, counter: int, d': CtlData, i: nat)
    requires CommittedAs(d, c, bucket, ds, counter, d') && |d.ledger| <= i < |d'.ledger|
    requires IsFamily(c.family) && ValidSchemas(d.tables)
    requires forall k :: 0 <= k < |c.requests| ==> IsTable(c.requests[k].table)
    ensures Paired(d'.ledger[i].stmt) && ReadStatement(Text(d'.ledger[i].stmt)) == Some(d'.ledger[i].stmt)
  {
    hide Text, ReadStatement, Plan;
    var rows := d'.ledger[|d.ledger|..];
    var k := i - |d.ledger|;
    var st := rows[k].stmt;
    assert st == LogAt(ds, k);
    if st.Row? {
      var j := if |ds| > 1 then k - 1 else k;
      PlannedIsPrintable(d.tables, c.family, c.requests[j]);
    }
    TextRoundTrip(st);
  }
}
