/** Rotation of the connection pools behind shared cells. Each cell has at most one rotation worker,
    whose steps interleave with those of the other worker and with readers. */
module PoolRotation {
  import opened Text

  type PoolId = nat
  type CellId = nat

  /** Where the worker of a cell stands. A pool is opened before it is installed, and the one it
      replaces is closed afterwards. */
  datatype Phase =
    | Waiting
    | Requesting
    | Leased
    | Configured
    | Built(pool: PoolId)
    | Swapped(old_pool: PoolId)
    | Stopped

  datatype State = State(
    installed: map<CellId, PoolId>,
    phase: map<CellId, Phase>,
    home: map<PoolId, CellId>,     // every pool ever opened, and the cell it was opened for
    open: set<PoolId>,
    closes: seq<PoolId>)           // in the order they were closed

  datatype Action =
    | Wake(cell: CellId)
    | ObtainLease(cell: CellId)
    | BuildOptions(cell: CellId)
    | Connect(cell: CellId, pool: PoolId)
    | Fail(cell: CellId)
    | Swap(cell: CellId)
    | Close(cell: CellId, expires: bool)
    | Load(cell: CellId)

  /** The phase in which the worker of a cell takes each step. */
  predicate Ready(phase: Phase, a: Action) {
    match a
    case Wake(_) => phase == Waiting
    case ObtainLease(_) => phase == Requesting
    case BuildOptions(_) => phase == Leased
    case Connect(_, _) => phase == Configured
    case Fail(_) => phase in {Requesting, Leased, Configured}
    case Swap(_) => phase.Built?
    case Close(_, _) => phase.Swapped?
    case Load(_) => true
  }

  predicate Enabled(s: State, a: Action) {
    && a.cell in s.installed
    && (a.Load? || (a.cell in s.phase && Ready(s.phase[a.cell], a)))
    && (a.Connect? ==> a.pool !in s.home)
  }

  function Step(s: State, a: Action): State
    requires Enabled(s, a)
  {
    match a
    case Wake(c) => s.(phase := s.phase[c := Requesting])
    case ObtainLease(c) => s.(phase := s.phase[c := Leased])
    case BuildOptions(c) => s.(phase := s.phase[c := Configured])
    case Connect(c, p) => s.(phase := s.phase[c := Built(p)], home := s.home[p := c], open := s.open + {p})
    case Fail(c) => s.(phase := s.phase[c := Waiting])
    case Swap(c) =>
      s.(phase := s.phase[c := Swapped(s.installed[c])], installed := s.installed[c := s.phase[c].pool])
    case Close(c, expires) =>
      var p := s.phase[c].old_pool;
      s.(phase := s.phase[c := if expires then Waiting else Stopped], open := s.open - {p}, closes := s.closes + [p])
    case Load(_) => s
  }

  /** The trace can be run from s; its last action is the outermost. */
  predicate Valid(s: State, trace: seq<Action>)
    decreases |trace|, 0
  {
    trace == []
    || (var n := |trace| - 1; Valid(s, trace[..n]) && Enabled(Run(s, trace[..n]), trace[n]))
  }

  function Run(s: State, trace: seq<Action>): State
    requires Valid(s, trace)
    decreases |trace|, 1
  {
    if trace == [] then s else Step(Run(s, trace[..|trace| - 1]), trace[|trace| - 1])
  }

  // ---------- Connecting ----------

  const DATA: CellId := 0

  /** Without an endpoint of its own, the secrets handle is the data handle's cell. */
  function SecretsCell(dedicated: bool): CellId { if dedicated then 1 else DATA }

  function Connected(dedicated: bool, rotateData: bool, rotateSecrets: bool): State {
    var cells := {DATA, SecretsCell(dedicated)};
    State(map c | c in cells :: c,
          map c | c in cells && (if c == DATA then rotateData else rotateSecrets) :: Waiting,
          map c | c in cells :: c,
          cells, [])
  }

  // ---------- What every step keeps ----------

  /** The pools a cell and its worker hold. */
  function Held(s: State, c: CellId): set<PoolId>
    requires c in s.installed
  {
    {s.installed[c]} + if c !in s.phase then {} else match s.phase[c]
                                                      case Built(p) => {p}
                                                      case Swapped(p) => {p}
                                                      case _ => {}
  }

  function OpenOf(s: State, c: CellId): set<PoolId> {
    set p | p in s.open && p in s.home && s.home[p] == c
  }

  /** The open pools of a cell are exactly the held ones, and a pool is closed once, after it is held. */
  ghost predicate CellSafe(s: State, c: CellId)
    requires c in s.installed
  {
    && OpenOf(s, c) == Held(s, c)
    && (c in s.phase && s.phase[c].Built? ==> s.phase[c].pool != s.installed[c])
    && (c in s.phase && s.phase[c].Swapped? ==> s.phase[c].old_pool != s.installed[c])
  }

  ghost predicate ClosedOnce(s: State) {
    && (forall i, j :: 0 <= i < j < |s.closes| ==> s.closes[i] != s.closes[j])
    && (forall p :: p in s.closes ==> p !in s.open && p in s.home)
  }

  ghost predicate Safe(s: State) {
    && s.phase.Keys <= s.installed.Keys && s.open <= s.home.Keys
    && (forall p :: p in s.home ==> s.home[p] in s.installed)
    && (forall c :: c in s.installed ==> CellSafe(s, c))
    && ClosedOnce(s)
  }

  lemma ConnectedSafe(dedicated: bool, rotateData: bool, rotateSecrets: bool)
    ensures Safe(Connected(dedicated, rotateData, rotateSecrets))
    ensures Accounted(Connected(dedicated, rotateData, rotateSecrets))
  {
    var s := Connected(dedicated, rotateData, rotateSecrets);
    assert CellSafe(s, DATA) by {
      assert OpenOf(s, DATA) == {0};
    }
    if dedicated {
      assert CellSafe(s, 1) by {
        assert OpenOf(s, 1) == {1};
      }
    }
  }

  /** A step touches only the pools of its own cell. */
  lemma OtherCellKept(s: State, a: Action, c: CellId)
    requires Safe(s) && Enabled(s, a) && c in s.installed && c != a.cell
    ensures CellSafe(Step(s, a), c) && OpenOf(Step(s, a), c) == OpenOf(s, c)
    ensures Step(s, a).installed[c] == s.installed[c]
  {
    var next := Step(s, a);
    assert CellSafe(s, c) && CellSafe(s, a.cell);
    if a.Close? {
      assert s.phase[a.cell].old_pool in OpenOf(s, a.cell);
    }
    assert OpenOf(next, c) == OpenOf(s, c);
  }

  lemma OwnCellKept(s: State, a: Action)
    requires Safe(s) && Enabled(s, a)
    ensures CellSafe(Step(s, a), a.cell) && ClosedOnce(Step(s, a))
  {
    var next, c := Step(s, a), a.cell;
    assert CellSafe(s, c);
    match a {
      case Connect(_, p) =>
        assert OpenOf(next, c) == OpenOf(s, c) + {p};
      case Close(_, _) =>
        var p := s.phase[c].old_pool;
        assert p in OpenOf(s, c);
        assert OpenOf(next, c) == OpenOf(s, c) - {p};
      case _ =>
        assert OpenOf(next, c) == OpenOf(s, c);
    }
  }

  lemma StepSafe(s: State, a: Action)
    requires Safe(s) && Enabled(s, a)
    ensures Safe(Step(s, a)) && Step(s, a).installed.Keys == s.installed.Keys
  {
    OwnCellKept(s, a);
    forall c | c in s.installed && c != a.cell ensures CellSafe(Step(s, a), c) {
      OtherCellKept(s, a, c);
    }
  }

  lemma {:induction false} RunSafe(s: State, trace: seq<Action>)
    requires Safe(s) && Valid(s, trace)
    ensures Safe(Run(s, trace)) && Run(s, trace).installed.Keys == s.installed.Keys
  {
    if trace != [] {
      var before, last := trace[..|trace| - 1], trace[|trace| - 1];
      RunSafe(s, before);
      StepSafe(Run(s, before), last);
      assert Run(s, trace) == Step(Run(s, before), last);
    }
  }

  /** In every reachable state: what a load returns is open and was never closed; a cell has one open
      pool, or two exactly from a successful connect until the replaced pool is closed; and every pool
      ever opened is open or was closed exactly once. */
  lemma PoolSafety(s: State, trace: seq<Action>, c: CellId)
    requires Safe(s) && Accounted(s) && Valid(s, trace) && c in s.installed
    ensures var now := Run(s, trace);
            && c in now.installed && now.installed[c] in now.open && now.installed[c] !in now.closes
            && |OpenOf(now, c)| == (if c in now.phase && (now.phase[c].Built? || now.phase[c].Swapped?) then 2 else 1)
            && Accounted(now)
            && (forall i, j :: 0 <= i < j < |now.closes| ==> now.closes[i] != now.closes[j])
  {
    RunSafe(s, trace);
    var now := Run(s, trace);
    assert CellSafe(now, c) && now.installed[c] in OpenOf(now, c);
    NothingLost(s, trace);
  }

  lemma {:induction false} NothingLost(s: State, trace: seq<Action>)
    requires Safe(s) && Accounted(s) && Valid(s, trace)
    ensures Accounted(Run(s, trace))
  {
    if trace != [] {
      var before, a := Run(s, trace[..|trace| - 1]), trace[|trace| - 1];
      NothingLost(s, trace[..|trace| - 1]);
      RunSafe(s, trace[..|trace| - 1]);
      StepAccounted(before, a);
    }
  }

  function ClosedPools(s: State): set<PoolId> { set p | p in s.closes }

  /** Every pool ever opened is open or closed. */
  predicate Accounted(s: State) { s.home.Keys == s.open + ClosedPools(s) }

  lemma StepAccounted(s: State, a: Action)
    requires Safe(s) && Accounted(s) && Enabled(s, a)
    ensures Accounted(Step(s, a))
  {
    if a.Close? {
      var p := s.phase[a.cell].old_pool;
      assert CellSafe(s, a.cell) && p in OpenOf(s, a.cell);
      assert ClosedPools(Step(s, a)) == ClosedPools(s) + {p};
    }
  }

  // ---------- What readers see ----------

  /** The state before action i. */
  function At(s: State, trace: seq<Action>, i: nat): State
    requires i <= |trace| && Valid(s, trace)
  {
    ValidPrefix(s, trace, i);
    Run(s, trace[..i])
  }

  lemma {:induction false} ValidPrefix(s: State, trace: seq<Action>, i: nat)
    requires i <= |trace| && Valid(s, trace)
    ensures Valid(s, trace[..i])
    decreases |trace|
  {
    if i < |trace| {
      var n := |trace| - 1;
      ValidPrefix(s, trace[..n], i);
      assert trace[..n][..i] == trace[..i];
    } else {
      assert trace[..i] == trace;
    }
  }

  lemma AtNext(s: State, trace: seq<Action>, i: nat)
    requires i < |trace| && Valid(s, trace)
    ensures Enabled(At(s, trace, i), trace[i]) && At(s, trace, i + 1) == Step(At(s, trace, i), trace[i])
  {
    ValidPrefix(s, trace, i + 1);
    assert trace[..i + 1][..i] == trace[..i];
  }

  lemma AtSafe(s: State, trace: seq<Action>, i: nat)
    requires Safe(s) && i <= |trace| && Valid(s, trace)
    ensures Safe(At(s, trace, i)) && At(s, trace, i).installed.Keys == s.installed.Keys
  {
    ValidPrefix(s, trace, i);
    RunSafe(s, trace[..i]);
  }

  /** Only a swap of a cell changes what loads of it return. */
  lemma {:induction false} OnlySwapReplaces(s: State, trace: seq<Action>, i: nat, j: nat, c: CellId)
    requires i <= j <= |trace| && Valid(s, trace) && c in At(s, trace, i).installed
    requires forall k :: i <= k < j ==> trace[k] != Swap(c)
    ensures c in At(s, trace, j).installed && At(s, trace, j).installed[c] == At(s, trace, i).installed[c]
  {
    if i < j {
      OnlySwapReplaces(s, trace, i, j - 1, c);
      AtNext(s, trace, j - 1);
    }
  }

  /** Every load after a swap, and before the next one, returns the pool that the swap installed. */
  lemma LoadSeesSwap(s: State, trace: seq<Action>, i: nat, j: nat, c: CellId)
    requires i < j <= |trace| && Valid(s, trace) && trace[i] == Swap(c)
    requires forall k :: i < k < j ==> trace[k] != Swap(c)
    ensures Enabled(At(s, trace, i), trace[i]) && c in At(s, trace, j).installed
    ensures At(s, trace, j).installed[c] == At(s, trace, i).phase[c].pool
  {
    AtNext(s, trace, i);
    OnlySwapReplaces(s, trace, i + 1, j, c);
  }

  /** The action closes pool p. */
  predicate ClosesPool(s: State, a: Action, p: PoolId) {
    a.Close? && a.cell in s.phase && s.phase[a.cell] == Swapped(p)
  }

  lemma StepOpen(s: State, a: Action, p: PoolId)
    requires Safe(s) && Enabled(s, a) && p in s.home
    ensures p in Step(s, a).home
    ensures p in Step(s, a).open <==> p in s.open && !ClosesPool(s, a, p)
  {
  }

  predicate ClosesAt(s: State, trace: seq<Action>, k: nat, p: PoolId)
    requires k < |trace| && Valid(s, trace)
  {
    ClosesPool(At(s, trace, k), trace[k], p)
  }

  lemma NextOpen(s: State, trace: seq<Action>, k: nat, p: PoolId)
    requires Safe(s) && k < |trace| && Valid(s, trace) && p in At(s, trace, k).home
    ensures p in At(s, trace, k + 1).home
    ensures p in At(s, trace, k + 1).open <==> p in At(s, trace, k).open && !ClosesAt(s, trace, k, p)
  {
    AtSafe(s, trace, k);
    AtNext(s, trace, k);
    StepOpen(At(s, trace, k), trace[k], p);
  }

  lemma {:induction false} OpenUntilClosed(s: State, trace: seq<Action>, i: nat, j: nat, p: PoolId)
    requires Safe(s) && i <= j <= |trace| && Valid(s, trace)
    requires p in At(s, trace, i).home && p in At(s, trace, i).open
    ensures p in At(s, trace, j).home
    ensures p in At(s, trace, j).open <==> forall k :: i <= k < j ==> !ClosesAt(s, trace, k, p)
  {
    if i < j {
      OpenUntilClosed(s, trace, i, j - 1, p);
      NextOpen(s, trace, j - 1, p);
    }
  }

  /** A pool that a reader loaded stays usable exactly until it is closed, and at the least until the next
      swap of its cell. */
  lemma LoadedUsable(s: State, trace: seq<Action>, i: nat, j: nat, c: CellId)
    requires Safe(s) && i <= j <= |trace| && Valid(s, trace) && c in At(s, trace, i).installed
    ensures var p := At(s, trace, i).installed[c];
            && (p in At(s, trace, j).open <==> forall k :: i <= k < j ==> !ClosesAt(s, trace, k, p))
            && ((forall k :: i <= k < j ==> trace[k] != Swap(c)) ==> p in At(s, trace, j).open)
  {
    AtSafe(s, trace, i);
    InstalledOpen(At(s, trace, i), c);
    OpenUntilClosed(s, trace, i, j, At(s, trace, i).installed[c]);
    if forall k :: i <= k < j ==> trace[k] != Swap(c) {
      OnlySwapReplaces(s, trace, i, j, c);
      AtSafe(s, trace, j);
      InstalledOpen(At(s, trace, j), c);
    }
  }

  lemma InstalledOpen(s: State, c: CellId)
    requires Safe(s) && c in s.installed
    ensures s.installed[c] in s.open && s.installed[c] in s.home
  {
    assert CellSafe(s, c) && s.installed[c] in OpenOf(s, c);
  }

  predicate BeforeSwap(s: State, c: CellId) {
    c in s.phase && (s.phase[c] in {Requesting, Leased, Configured} || s.phase[c].Built?)
  }

  /** From a wake-up of the cell's worker until its next one, the phases before the swap leave the cell alone. */
  lemma {:induction false} RefreshBeforeSwap(s: State, trace: seq<Action>, i: nat, j: nat, c: CellId)
    requires i < j <= |trace| && Valid(s, trace) && trace[i] == Wake(c)
    requires forall k :: i < k < j ==> trace[k] != Wake(c)
    requires BeforeSwap(At(s, trace, j), c)
    ensures c in At(s, trace, i).installed && c in At(s, trace, j).installed
    ensures At(s, trace, j).installed[c] == At(s, trace, i).installed[c]
  {
    AtNext(s, trace, i);
    AtNext(s, trace, j - 1);
    if i < j - 1 {
      RefreshBeforeSwap(s, trace, i, j - 1, c);
    }
  }

  lemma OnlyInstalledOpen(s: State, c: CellId)
    requires Safe(s) && c in s.installed && c in s.phase && !s.phase[c].Built? && !s.phase[c].Swapped?
    ensures OpenOf(s, c) == {s.installed[c]}
  {
    assert CellSafe(s, c);
  }

  lemma FailStep(s: State, c: CellId)
    requires Safe(s) && Enabled(s, Fail(c))
    ensures Step(s, Fail(c)).installed[c] == s.installed[c] && OpenOf(Step(s, Fail(c)), c) == {s.installed[c]}
  {
    OnlyInstalledOpen(s, c);
    assert OpenOf(Step(s, Fail(c)), c) == OpenOf(s, c);
  }

  /** A refresh that fails, at whatever point, leaves the installed pool in place and no other pool of
      the cell open. */
  lemma FailedRefreshHarmless(s: State, trace: seq<Action>, i: nat, j: nat, c: CellId)
    requires Safe(s) && i < j < |trace| && Valid(s, trace) && trace[i] == Wake(c) && trace[j] == Fail(c)
    requires forall k :: i < k < j ==> trace[k] != Wake(c)
    ensures c in At(s, trace, i).installed && c in At(s, trace, j + 1).installed
    ensures At(s, trace, j + 1).installed[c] == At(s, trace, i).installed[c]
    ensures OpenOf(At(s, trace, j + 1), c) == OpenOf(At(s, trace, i), c) == {At(s, trace, i).installed[c]}
  {
    AtNext(s, trace, j);
    RefreshBeforeSwap(s, trace, i, j, c);
    AtSafe(s, trace, j);
    FailStep(At(s, trace, j), c);
    AtNext(s, trace, i);
    AtSafe(s, trace, i);
    OnlyInstalledOpen(At(s, trace, i), c);
  }

  /** The two handles load the same pool at every moment exactly when they share a cell. */
  lemma HandlesAgree(dedicated: bool, rotateData: bool, rotateSecrets: bool, trace: seq<Action>)
    requires Valid(Connected(dedicated, rotateData, rotateSecrets), trace)
    ensures var now := Run(Connected(dedicated, rotateData, rotateSecrets), trace);
            && DATA in now.installed && SecretsCell(dedicated) in now.installed
            && (now.installed[DATA] == now.installed[SecretsCell(dedicated)] <==> !dedicated)
  {
    var s := Connected(dedicated, rotateData, rotateSecrets);
    ConnectedSafe(dedicated, rotateData, rotateSecrets);
    RunSafe(s, trace);
    var now := Run(s, trace);
    var c := SecretsCell(dedicated);
    assert CellSafe(now, DATA) && CellSafe(now, c);
    assert now.installed[DATA] in OpenOf(now, DATA) && now.installed[c] in OpenOf(now, c);
  }

  // ---------- The order of a worker's steps ----------

  /** The last step of the worker of a cell. */
  function LastStep(trace: seq<Action>, c: CellId): Option<Action> {
    if trace == [] then None
    else
      var last := trace[|trace| - 1];
      if last.cell == c && !last.Load? then Some(last) else LastStep(trace[..|trace| - 1], c)
  }

  /** A worker wakes, gets a lease, builds the options, connects, swaps and closes; it can fail before it has
      connected. After a failure, and after a close under a lease that expires, it wakes again. */
  predicate Follows(last: Option<Action>, next: Action) {
    match last
    case None => next.Wake?
    case Some(Wake(_)) => next.ObtainLease? || next.Fail?
    case Some(ObtainLease(_)) => next.BuildOptions? || next.Fail?
    case Some(BuildOptions(_)) => next.Connect? || next.Fail?
    case Some(Connect(_, _)) => next.Swap?
    case Some(Fail(_)) => next.Wake?
    case Some(Swap(_)) => next.Close?
    case Some(Close(_, expires)) => expires && next.Wake?
    case Some(Load(_)) => false
  }

  /** In every run a worker can take a step exactly when it may follow its last one; only a new pool can be
      opened. The other worker and the readers never stand in its way. */
  lemma {:induction false} ProtocolExact(s: State, trace: seq<Action>, a: Action)
    requires Valid(s, trace) && !a.Load? && a.cell in s.phase && s.phase[a.cell] == Waiting && a.cell in s.installed
    ensures Enabled(Run(s, trace), a)
        <==> Follows(LastStep(trace, a.cell), a) && (a.Connect? ==> a.pool !in Run(s, trace).home)
  {
    PhaseMeans(s, trace, a.cell);
  }

  /** The phase that a step leaves its worker in. */
  predicate Left(last: Option<Action>, phase: Phase) {
    match last
    case None => phase == Waiting
    case Some(Wake(_)) => phase == Requesting
    case Some(ObtainLease(_)) => phase == Leased
    case Some(BuildOptions(_)) => phase == Configured
    case Some(Connect(_, p)) => phase == Built(p)
    case Some(Fail(_)) => phase == Waiting
    case Some(Swap(_)) => phase.Swapped?
    case Some(Close(_, expires)) => phase == if expires then Waiting else Stopped
    case Some(Load(_)) => false
  }

  lemma {:induction false} PhaseMeans(s: State, trace: seq<Action>, c: CellId)
    requires Valid(s, trace) && c in s.phase && s.phase[c] == Waiting && c in s.installed
    ensures c in Run(s, trace).phase && c in Run(s, trace).installed
    ensures Left(LastStep(trace, c), Run(s, trace).phase[c])
  {
    if trace != [] {
      PhaseMeans(s, trace[..|trace| - 1], c);
    }
  }
}
