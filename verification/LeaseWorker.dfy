/** The rotation worker and the pool handles as objects on the heap. */
module LeaseWorker {
  import opened Text
  import opened LeaseTiming

  class Pool {
    var closes: nat  // how often it was closed

    constructor ()
      ensures closes == 0
    {
      closes := 0;
    }

    method Close()
      modifies this
      ensures closes == old(closes) + 1
    {
      closes := closes + 1;
    }
  }

  /** A cell that every clone of the handle shares. */
  class ReloadablePool {
    var inner: Pool

    constructor (pool: Pool)
      ensures inner == pool
    {
      inner := pool;
    }

    method Load() returns (pool: Pool)
      ensures pool == inner
    {
      pool := inner;
    }

    method Replace(pool: Pool) returns (replaced: Pool)
      modifies this
      ensures inner == pool && replaced == old(inner)
    {
      replaced := inner;
      inner := pool;
    }
  }

  class PgPool {
    const data: ReloadablePool
    const secrets: ReloadablePool

    constructor (data: ReloadablePool, secrets: ReloadablePool)
      ensures this.data == data && this.secrets == secrets
    {
      this.data := data;
      this.secrets := secrets;
    }
  }

  datatype RefreshError = Broker | Configuration | Connection

  class BrokerLeaseWorker {
    const pool: ReloadablePool
    var nextExpiry: Option<int>

    constructor (pool: ReloadablePool, nextExpiry: Option<int>)
      ensures this.pool == pool && this.nextExpiry == nextExpiry
    {
      this.pool := pool;
      this.nextExpiry := nextExpiry;
    }

    /** Only a renewal touches the cell: it installs a new pool and closes the one it replaced. */
    method RefreshOnce(outcome: Outcome) returns (r: Result<Option<int>, RefreshError>)
      modifies pool, pool.inner
      ensures r.Ok? <==> outcome.Renewed?
      ensures r.Ok? ==> r.value == outcome.expiresAt && fresh(pool.inner) && pool.inner.closes == 0
      ensures r.Ok? ==> old(pool.inner).closes == old(pool.inner.closes) + 1
      ensures r.Err? ==> pool.inner == old(pool.inner) && pool.inner.closes == old(pool.inner.closes)
      ensures outcome == RequestFailed ==> r == Err(Broker)
      ensures outcome == OptionsInvalid ==> r == Err(Configuration)
      ensures outcome == ConnectFailed ==> r == Err(Connection)
    {
      match outcome {
        case RequestFailed => return Err(Broker);
        case OptionsInvalid => return Err(Configuration);
        case ConnectFailed => return Err(Connection);
        case Renewed(expiresAt) =>
          var created := new Pool();
          var replaced := pool.Replace(created);
          replaced.Close();
          return Ok(expiresAt);
      }
    }

    /** One turn of the loop: sleep until the grace period, try, and sleep again after a failure. */
    method Turn(now: int, a: Attempt) returns (start: Start, clock: int)
      requires nextExpiry.Some?
      modifies this, pool, pool.inner
      ensures var expiry := old(nextExpiry).value;
              var at := StartTime(now, expiry, a.wakeLate);
              start == Start(at, expiry, a.outcome) && clock == Finish(at, a) && nextExpiry == NextExpiry(expiry, a)
      ensures a.outcome.Renewed? ==> fresh(pool.inner) && pool.inner.closes == 0
                                     && old(pool.inner).closes == old(pool.inner.closes) + 1
      ensures !a.outcome.Renewed? ==> pool.inner == old(pool.inner) && pool.inner.closes == old(pool.inner.closes)
    {
      var expiry := nextExpiry.value;
      var refreshAt := expiry - GRACE;
      clock := now;
      if refreshAt > clock {
        clock := refreshAt + a.wakeLate;
      }
      start := Start(clock, expiry, a.outcome);
      var r := RefreshOnce(a.outcome);
      clock := clock + a.duration;
      match r {
        case Ok(next) => nextExpiry := next;
        case Err(_) => clock := clock + RETRY + a.retryLate;
      }
    }

    /** The loop, observed for as many turns as the script has. The starts are those of the timeline;
        every pool it replaced was closed once, one for each renewal, and the installed one never. */
    method Run(now: int, script: seq<Attempt>) returns (starts: seq<Start>, replaced: set<Pool>)
      requires pool.inner.closes == 0
      modifies this, pool, pool.inner
      ensures starts == Timeline(now, old(nextExpiry), script)
      ensures nextExpiry == ExpiryAfter(old(nextExpiry), starts)
      ensures |replaced| == Renewals(starts, |starts|)
      ensures forall p :: p in replaced ==> p.closes == 1
      ensures pool.inner !in replaced && pool.inner.closes == 0
      ensures if replaced == {} then pool.inner == old(pool.inner)
              else fresh(pool.inner) && old(pool.inner) in replaced
    {
      var clock, i := now, 0;
      starts, replaced := [], {};
      ghost var whole, original := Timeline(now, nextExpiry, script), pool.inner;
      while i < |script| && nextExpiry.Some?
        invariant 0 <= i <= |script| && pool.inner.closes == 0
        invariant Progress(whole, old(nextExpiry), starts, clock, nextExpiry, script[i..], |replaced|)
        invariant pool.inner !in replaced && forall p :: p in replaced ==> p.closes == 1
        invariant forall p :: p in replaced ==> p == original || fresh(p)
        invariant if replaced == {} then pool.inner == original else fresh(pool.inner) && original in replaced
        decreases |script| - i
      {
        var before := pool.inner;
        ProgressNext(whole, old(nextExpiry), starts, clock, nextExpiry.value, script, i, |replaced|);
        var start;
        start, clock := Turn(clock, script[i]);
        starts := starts + [start];
        if pool.inner != before {
          replaced := replaced + {before};
        }
        i := i + 1;
      }
    }
  }

  function ExpiryAfter(expiry: Option<int>, starts: seq<Start>): Option<int> {
    if starts == [] then expiry
    else
      var last := starts[|starts| - 1];
      if last.outcome.Renewed? then last.outcome.expiresAt else Some(last.expiry)
  }

  /** The turns done so far, together with those still to come, make up the whole timeline; `renewed` of
      them were renewals. */
  ghost predicate Progress(whole: seq<Start>, first: Option<int>, starts: seq<Start>, clock: int, expiry: Option<int>,
                           rest: seq<Attempt>, renewed: nat)
  {
    starts + Timeline(clock, expiry, rest) == whole && expiry == ExpiryAfter(first, starts)
    && renewed == Renewals(starts, |starts|)
  }

  lemma ProgressNext(whole: seq<Start>, first: Option<int>, starts: seq<Start>, clock: int, expiry: int,
                     script: seq<Attempt>, i: nat, renewed: nat)
    requires i < |script| && Progress(whole, first, starts, clock, Some(expiry), script[i..], renewed)
    ensures var a := script[i];
            var at := StartTime(clock, expiry, a.wakeLate);
            Progress(whole, first, starts + [Start(at, expiry, a.outcome)], Finish(at, a), NextExpiry(expiry, a),
                     script[i + 1..], if a.outcome.Renewed? then renewed + 1 else renewed)
  {
    var at := StartTime(clock, expiry, script[i].wakeLate);
    assert script[i..][0] == script[i] && script[i..][1..] == script[i + 1..];
    RenewalsNext(starts, Start(at, expiry, script[i].outcome));
  }

  lemma RenewalsNext(starts: seq<Start>, s: Start)
    ensures Renewals(starts + [s], |starts| + 1) == Renewals(starts, |starts|) + if s.outcome.Renewed? then 1 else 0
  {
    RenewalsPrefix(starts, [s], |starts|);
  }

  lemma {:induction false} RenewalsPrefix(a: seq<Start>, b: seq<Start>, i: nat)
    requires i <= |a|
    ensures Renewals(a + b, i) == Renewals(a, i)
  {
    if i > 0 {
      RenewalsPrefix(a, b, i - 1);
    }
  }

  /** How a pool authenticates: with fixed credentials, or with a broker lease that may expire. */
  datatype Auth = Static | Leased(expiry: Option<int>)

  datatype PoolInit = PoolInit(pool: ReloadablePool, worker: Option<BrokerLeaseWorker>)

  /** A cell holding a fresh pool, and a worker on that cell exactly for leased credentials. */
  method CreatePool(auth: Auth) returns (init: PoolInit)
    ensures fresh(init.pool) && fresh(init.pool.inner) && init.pool.inner.closes == 0
    ensures init.worker.Some? <==> auth.Leased?
    ensures init.worker.Some? ==>
              fresh(init.worker.value) && init.worker.value.pool == init.pool
              && init.worker.value.nextExpiry == auth.expiry
  {
    var pool := new Pool();
    var cell := new ReloadablePool(pool);
    match auth {
      case Static => return PoolInit(cell, None);
      case Leased(expiry) =>
        var worker := new BrokerLeaseWorker(cell, expiry);
        return PoolInit(cell, Some(worker));
    }
  }

  /** Connecting: without a secrets endpoint both handles are one cell and there is no second worker; with
      one they are apart. Static credentials get no worker. */
  method ConnectPostgres(data: Auth, secrets: Option<Auth>)
    returns (db: PgPool, dataWorker: Option<BrokerLeaseWorker>, secretsWorker: Option<BrokerLeaseWorker>)
    ensures fresh(db) && fresh(db.data) && fresh(db.secrets) && fresh(db.data.inner) && fresh(db.secrets.inner)
    ensures db.data.inner.closes == 0 && db.secrets.inner.closes == 0
    ensures db.secrets == db.data <==> secrets.None?
    ensures secrets.Some? ==> db.secrets.inner != db.data.inner
    ensures dataWorker.Some? <==> data.Leased?
    ensures dataWorker.Some? ==>
              fresh(dataWorker.value) && dataWorker.value.pool == db.data && dataWorker.value.nextExpiry == data.expiry
    ensures secretsWorker.Some? <==> secrets.Some? && secrets.value.Leased?
    ensures secretsWorker.Some? ==>
              fresh(secretsWorker.value) && secretsWorker.value.pool == db.secrets
              && secretsWorker.value.nextExpiry == secrets.value.expiry
  {
    var first := CreatePool(data);
    dataWorker := first.worker;
    if secrets.Some? {
      var second := CreatePool(secrets.value);
      secretsWorker := second.worker;
      db := new PgPool(first.pool, second.pool);
    } else {
      secretsWorker := None;
      db := new PgPool(first.pool, first.pool);
    }
  }

  /** A run of the data worker, seen through both handles: a shared secrets handle follows it to the new
      pool, and a dedicated one keeps its own, open. */
  method RotateData(secrets: Option<Auth>, expiry: Option<int>, now: int, script: seq<Attempt>)
    returns (db: PgPool, first: Pool, viaData: Pool, viaSecrets: Pool)
    ensures viaData == viaSecrets <==> secrets.None?
    ensures viaData.closes == 0 && viaSecrets.closes == 0
    ensures var starts := Timeline(now, expiry, script);
            first == viaData <==> Renewals(starts, |starts|) == 0
    ensures viaData != first ==> first.closes == 1
  {
    var worker, other;
    db, worker, other := ConnectPostgres(Leased(expiry), secrets);
    first := db.data.Load();
    var starts, replaced := worker.value.Run(now, script);
    viaData := db.data.Load();
    viaSecrets := db.secrets.Load();
  }
}
