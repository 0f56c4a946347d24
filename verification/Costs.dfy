/**
 * What a request costs each limit of its client, and the two checks a cost must pass
 * before any budget is asked for it.
 */
module Costs {
  import opened Numbers
  import opened TokenBucket

  datatype Limit =
    | RequestLimit(name: string, cfg: Config)
    | ConcurrencyLimit(name: string, maxConcurrency: real)
    | NoLimit(name: string)
  {
    predicate Metered() { !NoLimit? }

    /** The largest amount a cost may name for this limit. */
    function Ceiling(): real
      requires Metered()
    {
      if RequestLimit? then cfg.maxTokens else maxConcurrency
    }

    /** What a client is refused for at construction, and an update is ignored for. */
    predicate Usable() {
      match this
      case RequestLimit(_, cfg) => cfg.Usable() && cfg.interval > 0
      case ConcurrencyLimit(_, maxConcurrency) => maxConcurrency > 0.0
      case NoLimit(_) => true
    }
  }

  /** One amount for all limits alike, or one for each name. */
  datatype Cost = Flat(amount: real) | PerLimit(amounts: map<string, real>)

  /** The distance from 1 to the next double, two to the power of minus 52. */
  const EPSILON: real := 1.0 / 4503599627370496.0

  datatype CostFlaw = BelowFloor | NamesNothing | BadEntry(name: string) | SpendsNothing

  ghost predicate GoodEntry(amount: real) { amount == 0.0 || amount >= EPSILON }

  /** Large enough to be taken from a balance, wherever it is not zero, and not zero everywhere. */
  ghost predicate Spendable(cost: Cost) {
    match cost
    case Flat(amount) => amount >= EPSILON
    case PerLimit(amounts) =>
      && (forall name :: name in amounts ==> GoodEntry(amounts[name]))
      && (exists name :: name in amounts && amounts[name] != 0.0)
  }

  method UnusableCostReason(cost: Cost) returns (flaw: Option<CostFlaw>)
    ensures flaw.None? <==> Spendable(cost)
    ensures flaw.Some? && flaw.value.BadEntry? ==>
      cost.PerLimit? && flaw.value.name in cost.amounts && !GoodEntry(cost.amounts[flaw.value.name])
  {
    if cost.Flat? {
      return if cost.amount >= EPSILON then None else Some(BelowFloor);
    }
    if cost.amounts == map[] {
      return Some(NamesNothing);
    }
    var rest, spends := cost.amounts.Keys, false;
    while rest != {}
      invariant rest <= cost.amounts.Keys
      invariant forall name :: name in cost.amounts && name !in rest ==> GoodEntry(cost.amounts[name])
      invariant spends <==> exists name :: name in cost.amounts && name !in rest && cost.amounts[name] >= EPSILON
      decreases |rest|
    {
      var name :| name in rest;
      rest := rest - {name};
      var amount := cost.amounts[name];
      if amount != 0.0 && amount < EPSILON {
        return Some(BadEntry(name));
      }
      if amount >= EPSILON {
        assert name in cost.amounts && name !in rest;
        spends := true;
      }
    }
    return if spends then None else Some(SpendsNothing);
  }

  /** A limit's share of a cost, which is `None` for a name the cost lacks. */
  function CostFor(cost: Cost, name: string): Option<real> {
    if cost.Flat? then Some(cost.amount)
    else if name in cost.amounts then Some(cost.amounts[name])
    else None
  }

  /** The share a release hands back, with zero standing in for a name the cost lacks. */
  function ClaimedAmount(cost: Cost, name: string): real {
    if CostFor(cost, name).Some? then CostFor(cost, name).value else 0.0
  }

  /** The limits without the unmetered ones. */
  function MeteredLimits(limits: seq<Limit>): (metered: seq<Limit>)
    ensures forall limit :: limit in metered <==> limit in limits && limit.Metered()
  {
    if limits == [] then []
    else if limits[0].Metered() then [limits[0]] + MeteredLimits(limits[1..])
    else MeteredLimits(limits[1..])
  }

  function Names(limits: seq<Limit>): set<string> { set limit | limit in limits :: limit.name }

  /** A cost given by name names the limits, all of them and no other. */
  ghost predicate NamesExactly(cost: Cost, limits: seq<Limit>) {
    cost.PerLimit? ==> cost.amounts.Keys == Names(limits)
  }

  ghost predicate Breached(cost: Cost, limit: Limit)
    requires limit.Metered()
  {
    CostFor(cost, limit.name).Some? && CostFor(cost, limit.name).value > limit.Ceiling()
  }

  ghost predicate Admissible(cost: Cost, limits: seq<Limit>)
    requires forall limit :: limit in limits ==> limit.Metered()
  {
    NamesExactly(cost, limits) && forall limit :: limit in limits ==> !Breached(cost, limit)
  }

  /** Of the first `n` limits, the breached one of lowest ceiling, and the first of several. */
  ghost predicate Tightest(cost: Cost, limits: seq<Limit>, n: nat, i: nat)
    requires forall limit :: limit in limits ==> limit.Metered()
  {
    && i < n <= |limits| && Breached(cost, limits[i])
    && (forall j :: 0 <= j < i && Breached(cost, limits[j]) ==> limits[i].Ceiling() < limits[j].Ceiling())
    && (forall j :: i < j < n && Breached(cost, limits[j]) ==> limits[i].Ceiling() <= limits[j].Ceiling())
  }

  method TightestBreach(cost: Cost, limits: seq<Limit>) returns (breach: Option<nat>)
    requires forall limit :: limit in limits ==> limit.Metered()
    requires forall limit :: limit in limits ==> CostFor(cost, limit.name).Some?
    ensures breach.None? ==> forall limit :: limit in limits ==> !Breached(cost, limit)
    ensures breach.Some? ==> Tightest(cost, limits, |limits|, breach.value)
  {
    breach := None;
    for k := 0 to |limits|
      invariant breach.None? ==> forall j :: 0 <= j < k ==> !Breached(cost, limits[j])
      invariant breach.Some? ==> Tightest(cost, limits, k, breach.value)
    {
      var amount, ceiling := CostFor(cost, limits[k].name).value, limits[k].Ceiling();
      if amount > ceiling && (breach.None? || ceiling < limits[breach.value].Ceiling()) {
        breach := Some(k);
      }
    }
  }

  datatype CostProblem =
    | Mismatch(missing: set<string>, unknown: set<string>)
    | Exceeds(amount: real, ceiling: real, limit: Option<string>)

  /** The refusal names the lowest of the ceilings that are breached. */
  ghost predicate Blames(cost: Cost, limits: seq<Limit>, problem: CostProblem, i: nat)
    requires forall limit :: limit in limits ==> limit.Metered()
  {
    && Tightest(cost, limits, |limits|, i)
    && problem == Exceeds(CostFor(cost, limits[i].name).value, limits[i].Ceiling(),
      if |limits| > 1 then Some(limits[i].name) else None)
  }

  /** Why no wait would see this cost admitted, in the terms its caller can act on. */
  method GetCostProblem(cost: Cost, limits: seq<Limit>) returns (problem: Option<CostProblem>)
    requires forall limit :: limit in limits ==> limit.Metered()
    ensures problem.None? <==> Admissible(cost, limits)
    ensures problem.Some? && !NamesExactly(cost, limits) ==>
      problem.value == Mismatch(Names(limits) - cost.amounts.Keys, cost.amounts.Keys - Names(limits))
    ensures problem.Some? && NamesExactly(cost, limits) ==>
      exists i: nat :: Blames(cost, limits, problem.value, i)
  {
    if cost.PerLimit? {
      var declared := Names(limits);
      var missing, unknown := declared - cost.amounts.Keys, cost.amounts.Keys - declared;
      if missing != {} || unknown != {} {
        return Some(Mismatch(missing, unknown));
      }
      assert cost.amounts.Keys == declared;
    }
    assert forall limit :: limit in limits ==> limit.name in Names(limits);
    var breach := TightestBreach(cost, limits);
    if breach.None? {
      return None;
    }
    var tightest := limits[breach.value];
    problem := Some(Exceeds(CostFor(cost, tightest.name).value, tightest.Ceiling(),
      if |limits| > 1 then Some(tightest.name) else None));
    assert Blames(cost, limits, problem.value, breach.value);
  }

  /** A flat cost that is refused is told the lowest ceiling there is. */
  lemma FlatMeetsTheTightest(amount: real, limits: seq<Limit>, problem: CostProblem, i: nat)
    requires forall limit :: limit in limits ==> limit.Metered()
    requires Blames(Flat(amount), limits, problem, i)
    ensures forall limit :: limit in limits ==> problem.ceiling <= limit.Ceiling()
  {
    forall j | 0 <= j < |limits| ensures problem.ceiling <= limits[j].Ceiling() {
      assert Breached(Flat(amount), limits[j]) || limits[j].Ceiling() >= amount > problem.ceiling;
    }
  }

  /** A full bucket covers slightly more than its ceiling, by the balance tolerance. */
  lemma FullBucketCovers(amount: real, maxTokens: real)
    requires maxTokens > 0.0
    ensures CoversCost(maxTokens, amount, maxTokens) <==> amount <= maxTokens + maxTokens * BALANCE_TOLERANCE
  {
  }
}
