/** Exact cost estimates over recorded provider rounds, in checked 128-bit arithmetic. */
module CostEstimate {
  import opened Basics
  import opened Decimal

  const U128 := 0x1_0000_0000_0000_0000_0000_0000_0000_0000
  const MAX_RATE := 1_000_000_000_000
  const MAX_ROUNDS := 1024

  type U64 = n: nat | n < 0x1_0000_0000_0000_0000

  datatype Rate = Rate(provider: string, model: string, input: U64, output: U64)

  datatype Response = Response(provider: string, model: string, usage: string, input: U64, output: U64)

  datatype Round = Round(response: Option<Response>)

  // ---------- The rate card ----------

  function KeyOf(r: Rate): (string, string) {
    (r.provider, r.model)
  }

  predicate Unique(rates: seq<Rate>) {
    forall i, j | 0 <= i < j < |rates| :: KeyOf(rates[i]) != KeyOf(rates[j])
  }

  predicate Bounded(rates: seq<Rate>) {
    forall r <- rates :: r.input <= MAX_RATE && r.output <= MAX_RATE
  }

  /** The loop of `RateCard::parse` that bounds prices and refuses a repeated provider/model pair. */
  method CheckRates(rates: seq<Rate>) returns (ok: bool)
    ensures ok <==> Unique(rates) && Bounded(rates)
    ensures ok <==>
      && (forall i, j | 0 <= i < j < |rates| :: rates[i].provider != rates[j].provider || rates[i].model != rates[j].model)
      && forall i | 0 <= i < |rates| :: rates[i].input <= 1_000_000_000_000 && rates[i].output <= 1_000_000_000_000
  {
    var identities: set<(string, string)> := {};
    for i := 0 to |rates|
      invariant identities == set j | 0 <= j < i :: KeyOf(rates[j])
      invariant Unique(rates[..i]) && Bounded(rates[..i])
    {
      var rate := rates[i];
      if rate.input > MAX_RATE || rate.output > MAX_RATE {
        assert rate in rates;
        return false;
      }
      if KeyOf(rate) in identities {
        return false;
      }
      identities := identities + {KeyOf(rate)};
      assert rates[..i + 1] == rates[..i] + [rate];
    }
    assert rates[..|rates|] == rates;
    ok := true;
  }

  /** The first rate for the pair, by linear search. */
  function Find(rates: seq<Rate>, key: (string, string)): Option<Rate> {
    if rates == [] then None
    else if KeyOf(rates[0]) == key then Some(rates[0])
    else Find(rates[1..], key)
  }

  lemma {:induction false} FindIsFirst(rates: seq<Rate>, key: (string, string), i: nat)
    requires Unique(rates) && i < |rates| && KeyOf(rates[i]) == key
    ensures Find(rates, key) == Some(rates[i])
    decreases i
  {
    if i > 0 {
      FindIsFirst(rates[1..], key, i - 1);
    }
  }

  lemma {:induction false} FindNone(rates: seq<Rate>, key: (string, string))
    requires forall r <- rates :: KeyOf(r) != key
    ensures Find(rates, key).None?
  {
    if rates != [] {
      FindNone(rates[1..], key);
    }
  }

  ghost predicate Indexes(index: map<(string, string), Rate>, rates: seq<Rate>) {
    forall key :: Find(rates, key) == if key in index then Some(index[key]) else None
  }

  /** The lookup index agrees with a linear search of the list, for every pair. */
  method BuildIndex(rates: seq<Rate>) returns (index: map<(string, string), Rate>)
    requires Unique(rates)
    ensures Indexes(index, rates)
  {
    index := map[];
    for i := 0 to |rates|
      invariant forall j | 0 <= j < i :: KeyOf(rates[j]) in index && index[KeyOf(rates[j])] == rates[j]
      invariant forall key <- index :: exists j :: 0 <= j < i && KeyOf(rates[j]) == key
    {
      index := index[KeyOf(rates[i]) := rates[i]];
    }
    forall key
      ensures Find(rates, key) == if key in index then Some(index[key]) else None
    {
      if key in index {
        var j :| 0 <= j < |rates| && KeyOf(rates[j]) == key;
        FindIsFirst(rates, key, j);
      } else {
        FindNone(rates, key);
      }
    }
  }

  // ---------- One round ----------

  datatype Kind = Priced(units: nat) | Unreported | Partial | MissingRate | Invalid

  function Classify(rates: seq<Rate>, round: Round): Kind {
    match round.response
    case None => Unreported
    case Some(r) =>
      if r.usage == "partial" then Partial
      else if r.usage == "unreported" then Unreported
      else if r.usage != "complete" then Invalid
      else match Find(rates, (r.provider, r.model))
           case None => MissingRate
           case Some(rate) => Priced(r.input * rate.input + r.output * rate.output)
  }

  // ---------- The estimate ----------

  datatype Tally = Tally(subtotal: nat, priced: nat, unreported: nat, partial: nat, missing: nat)

  datatype Failure = TooManyRounds | InvalidClassification | Overflow

  const Nothing := Tally(0, 0, 0, 0, 0)

  function Add(t: Tally, k: Kind): Tally {
    match k
    case Priced(units) => t.(subtotal := t.subtotal + units, priced := t.priced + 1)
    case Unreported => t.(unreported := t.unreported + 1)
    case Partial => t.(partial := t.partial + 1)
    case MissingRate => t.(missing := t.missing + 1)
    case Invalid => t
  }

  /** How many rounds are of each kind, and what the priced ones come to. */
  function Sum(kind: Round -> Kind, rounds: seq<Round>): Tally {
    if rounds == [] then Nothing
    else Add(Sum(kind, rounds[..|rounds| - 1]), kind(rounds[|rounds| - 1]))
  }

  function ByRates(rates: seq<Rate>): Round -> Kind {
    (round: Round) => Classify(rates, round)
  }

  function Total(rates: seq<Rate>, rounds: seq<Round>): Tally {
    Sum(ByRates(rates), rounds)
  }

  predicate AllValid(rates: seq<Rate>, rounds: seq<Round>) {
    forall r <- rounds :: !Classify(rates, r).Invalid?
  }

  function CheckedMul(a: nat, b: nat): Option<nat> {
    if a * b < U128 then Some(a * b) else None
  }

  function CheckedAdd(a: nat, b: nat): Option<nat> {
    if a + b < U128 then Some(a + b) else None
  }

  /** The body of the loop: one more round, priced by checked operations. */
  method AddRound(rates: seq<Rate>, index: map<(string, string), Rate>, t: Tally, round: Round)
    returns (r: Result<Tally, Failure>)
    requires Indexes(index, rates)
    ensures var k := Classify(rates, round);
      r == if k.Invalid? then Err(InvalidClassification)
           else if k.Priced? && t.subtotal + k.units >= U128 then Err(Overflow)
           else Ok(Add(t, k))
  {
    if round.response.None? {
      return Ok(t.(unreported := t.unreported + 1));
    }
    var response := round.response.value;
    if response.usage == "partial" {
      return Ok(t.(partial := t.partial + 1));
    }
    if response.usage == "unreported" {
      return Ok(t.(unreported := t.unreported + 1));
    }
    if response.usage != "complete" {
      return Err(InvalidClassification);
    }
    var key := (response.provider, response.model);
    assert Find(rates, key) == if key in index then Some(index[key]) else None;
    if key !in index {
      return Ok(t.(missing := t.missing + 1));
    }
    var rate := index[key];
    var input := CheckedMul(response.input, rate.input);
    var output := CheckedMul(response.output, rate.output);
    var amount := if input.Some? && output.Some? then CheckedAdd(input.value, output.value) else None;
    var sum := if amount.Some? then CheckedAdd(t.subtotal, amount.value) else None;
    if sum.None? {
      return Err(Overflow);
    }
    r := Ok(t.(subtotal := sum.value, priced := t.priced + 1));
  }

  /**
    The estimate succeeds exactly when there are at most 1024 rounds, every classification is known
    and the total fits 128 bits; then it is the exact total of the rounds.
   */
  method Estimate(rates: seq<Rate>, rounds: seq<Round>) returns (r: Result<Tally, Failure>)
    requires Unique(rates)
    ensures r.Ok? <==> |rounds| <= 1024 && AllValid(rates, rounds) && Total(rates, rounds).subtotal < 0x1_0000_0000_0000_0000_0000_0000_0000_0000
    ensures r.Ok? ==> r.value == Total(rates, rounds)
    ensures r.Ok? ==> CountedByClass(rates, rounds, r.value)
    ensures forall i | 0 <= i < |rates| && |rounds| == 1 && PricedAt(rates, i, rounds[0]) && r.Ok? ::
      r.value == Tally(PriceAt(rates[i], rounds[0]), 1, 0, 0, 0)
    ensures |rounds| > 1024 ==> r == Err(TooManyRounds)
    ensures Bounded(rates) && |rounds| <= 1024 && !AllValid(rates, rounds) ==> r == Err(InvalidClassification)
    ensures |rounds| <= 1024 && AllValid(rates, rounds) && Total(rates, rounds).subtotal >= 0x1_0000_0000_0000_0000_0000_0000_0000_0000 ==> r == Err(Overflow)
  {
    if |rounds| > MAX_ROUNDS {
      return Err(TooManyRounds);
    }
    var index := BuildIndex(rates);
    var t := Nothing;
    for i := 0 to |rounds|
      invariant t == Total(rates, rounds[..i]) && t.subtotal < U128 && AllValid(rates, rounds[..i])
    {
      var next := AddRound(rates, index, t, rounds[i]);
      assert rounds[..i + 1][..i] == rounds[..i] && rounds[..i + 1] == rounds[..i] + [rounds[i]];
      SubtotalGrows(ByRates(rates), rounds, i + 1);
      if next.Err? {
        assert rounds[i] in rounds;
        if Bounded(rates) {
          ParsedCardNeverOverflows(rates, rounds[..i + 1]);
        }
        return next;
      }
      t := next.value;
    }
    assert rounds[..|rounds|] == rounds;
    CountsByClass(rates, rounds);
    forall i | 0 <= i < |rates| && |rounds| == 1 && PricedAt(rates, i, rounds[0])
      ensures t == Tally(PriceAt(rates[i], rounds[0]), 1, 0, 0, 0)
    {
      OneRoundCosts(rates, i, rounds[0]);
      assert rounds == [rounds[0]];
    }
    r := Ok(t);
  }

  lemma {:induction false} SubtotalGrows(kind: Round -> Kind, rounds: seq<Round>, i: nat)
    requires i <= |rounds|
    ensures Sum(kind, rounds[..i]).subtotal <= Sum(kind, rounds).subtotal
    decreases |rounds|
  {
    if i == |rounds| {
      assert rounds[..i] == rounds;
    } else {
      var shorter := rounds[..|rounds| - 1];
      assert shorter[..i] == rounds[..i];
      SubtotalGrows(kind, shorter, i);
    }
  }

  // ---------- What a round costs, and which count it goes to ----------

  /** The round has complete usage of the pair that the card's entry `i` prices. */
  predicate PricedAt(rates: seq<Rate>, i: nat, round: Round)
    requires i < |rates|
  {
    && round.response.Some? && round.response.value.usage == "complete"
    && round.response.value.provider == rates[i].provider && round.response.value.model == rates[i].model
  }

  /** Input tokens at the input price and output tokens at the output price. */
  function PriceAt(rate: Rate, round: Round): nat
    requires round.response.Some?
  {
    round.response.value.input * rate.input + round.response.value.output * rate.output
  }

  predicate HasUsage(round: Round, usage: string) {
    round.response.Some? && round.response.value.usage == usage
  }

  predicate OnCard(rates: seq<Rate>, round: Round) {
    exists i | 0 <= i < |rates| :: PricedAt(rates, i, round)
  }

  datatype Class = IsPriced | IsMissing | IsPartial | IsUnreported

  /** The condition of each class, on the response alone. */
  predicate InClass(rates: seq<Rate>, round: Round, c: Class) {
    match c
    case IsPriced => OnCard(rates, round)
    case IsMissing => HasUsage(round, "complete") && !OnCard(rates, round)
    case IsPartial => HasUsage(round, "partial")
    case IsUnreported => round.response.None? || HasUsage(round, "unreported")
  }

  /** The positions of the rounds of a class. */
  function Where(rates: seq<Rate>, rounds: seq<Round>, c: Class): set<nat> {
    set i: nat | i < |rounds| && InClass(rates, rounds[i], c)
  }

  /** Each count is the number of rounds that meet the condition of its class. */
  predicate CountedByClass(rates: seq<Rate>, rounds: seq<Round>, t: Tally) {
    && t.priced == |Where(rates, rounds, IsPriced)| && t.missing == |Where(rates, rounds, IsMissing)|
    && t.partial == |Where(rates, rounds, IsPartial)| && t.unreported == |Where(rates, rounds, IsUnreported)|
  }

  lemma WhereGrows(rates: seq<Rate>, rounds: seq<Round>, last: Round, c: Class)
    ensures |Where(rates, rounds + [last], c)| == |Where(rates, rounds, c)| + if InClass(rates, last, c) then 1 else 0
  {
    var all := rounds + [last];
    assert Where(rates, all, c) == Where(rates, rounds, c) + if InClass(rates, last, c) then {|rounds|} else {};
  }

  lemma ClassOfRound(rates: seq<Rate>, round: Round)
    ensures var k := Classify(rates, round);
      && (k.Priced? <==> InClass(rates, round, IsPriced)) && (k.MissingRate? <==> InClass(rates, round, IsMissing))
      && (k.Partial? <==> InClass(rates, round, IsPartial)) && (k.Unreported? <==> InClass(rates, round, IsUnreported))
  {
    if HasUsage(round, "complete") {
      var key := (round.response.value.provider, round.response.value.model);
      FoundIsListed(rates, key);
      if OnCard(rates, round) {
        var i :| 0 <= i < |rates| && PricedAt(rates, i, round);
        ListedIsFound(rates, i);
      } else {
        forall r <- rates ensures KeyOf(r) != key {
          var i :| 0 <= i < |rates| && rates[i] == r;
          assert !PricedAt(rates, i, round);
        }
        FindNone(rates, key);
      }
    }
  }

  lemma {:induction false} ListedIsFound(rates: seq<Rate>, i: nat)
    requires i < |rates|
    ensures Find(rates, KeyOf(rates[i])).Some?
    decreases i
  {
    if i > 0 {
      ListedIsFound(rates[1..], i - 1);
    }
  }

  lemma {:induction false} CountsByClass(rates: seq<Rate>, rounds: seq<Round>)
    ensures CountedByClass(rates, rounds, Total(rates, rounds))
    decreases |rounds|
  {
    if rounds != [] {
      var n := |rounds| - 1;
      var front, last := rounds[..n], rounds[n];
      assert rounds == front + [last];
      CountsByClass(rates, front);
      ClassOfRound(rates, last);
      SumLast(ByRates(rates), front, last);
      WhereGrows(rates, front, last, IsPriced);
      WhereGrows(rates, front, last, IsMissing);
      WhereGrows(rates, front, last, IsPartial);
      WhereGrows(rates, front, last, IsUnreported);
    }
  }

  /** A single round of a listed pair costs its tokens at that entry's prices. */
  lemma OneRoundCosts(rates: seq<Rate>, i: nat, round: Round)
    requires Unique(rates) && i < |rates| && PricedAt(rates, i, round)
    ensures Total(rates, [round]) == Tally(PriceAt(rates[i], round), 1, 0, 0, 0)
  {
    FindIsFirst(rates, KeyOf(rates[i]), i);
    SumLast(ByRates(rates), [], round);
    assert [] + [round] == [round];
  }

  lemma OtherRoundsAreFree(rates: seq<Rate>, round: Round)
    requires !OnCard(rates, round)
    ensures Total(rates, [round]).subtotal == 0
  {
    ClassOfRound(rates, round);
    SumLast(ByRates(rates), [], round);
    assert [] + [round] == [round];
  }

  /** The totals of two lists in a row add up. */
  lemma {:induction false} TotalsAdd(rates: seq<Rate>, a: seq<Round>, b: seq<Round>)
    ensures Total(rates, a + b).subtotal == Total(rates, a).subtotal + Total(rates, b).subtotal
    decreases |b|
  {
    if b == [] {
      assert a + b == a;
    } else {
      var n := |b| - 1;
      TotalsAdd(rates, a, b[..n]);
      assert a + b == (a + b[..n]) + [b[n]] && b == b[..n] + [b[n]];
      SumLast(ByRates(rates), a + b[..n], b[n]);
      SumLast(ByRates(rates), b[..n], b[n]);
    }
  }

  // ---------- What the totals mean ----------

  const MAX_PRICE := 2 * 0x1_0000_0000_0000_0000 * MAX_RATE

  /** For a parsed card no checked operation can overflow: 1024 rounds always fit 128 bits. */
  lemma {:induction false} ParsedCardNeverOverflows(rates: seq<Rate>, rounds: seq<Round>)
    requires Bounded(rates)
    ensures Total(rates, rounds).subtotal <= |rounds| * MAX_PRICE
    ensures |rounds| <= MAX_ROUNDS ==> Total(rates, rounds).subtotal < U128
    decreases |rounds|
  {
    if rounds != [] {
      var n := |rounds| - 1;
      ParsedCardNeverOverflows(rates, rounds[..n]);
      PriceIsBounded(rates, rounds[n]);
    }
  }

  lemma PriceIsBounded(rates: seq<Rate>, round: Round)
    requires Bounded(rates)
    ensures Classify(rates, round).Priced? ==> Classify(rates, round).units <= MAX_PRICE
  {
    if Classify(rates, round).Priced? {
      var r := round.response.value;
      FoundIsListed(rates, (r.provider, r.model));
      var rate := Find(rates, (r.provider, r.model)).value;
      Product(r.input, rate.input);
      Product(r.output, rate.output);
    }
  }

  lemma Product(tokens: U64, rate: nat)
    requires rate <= MAX_RATE
    ensures tokens * rate <= 0x1_0000_0000_0000_0000 * MAX_RATE
  {
    assert tokens * rate <= tokens * MAX_RATE;
  }

  lemma {:induction false} FoundIsListed(rates: seq<Rate>, key: (string, string))
    ensures Find(rates, key).Some? ==> Find(rates, key).value in rates
  {
    if rates != [] {
      FoundIsListed(rates[1..], key);
    }
  }

  /** The four counts partition the rounds. */
  lemma {:induction false} CountsPartitionRounds(rates: seq<Rate>, rounds: seq<Round>)
    requires AllValid(rates, rounds)
    ensures var t := Total(rates, rounds); t.priced + t.unreported + t.partial + t.missing == |rounds|
    decreases |rounds|
  {
    if rounds != [] {
      var n := |rounds| - 1;
      assert rounds[n] in rounds;
      CountsPartitionRounds(rates, rounds[..n]);
    }
  }

  function Without(rounds: seq<Round>, i: nat): seq<Round>
    requires i < |rounds|
  {
    rounds[..i] + rounds[i + 1..]
  }

  lemma SumLast(kind: Round -> Kind, rounds: seq<Round>, last: Round)
    ensures Sum(kind, rounds + [last]) == Add(Sum(kind, rounds), kind(last))
  {
    assert (rounds + [last])[..|rounds|] == rounds;
  }

  lemma AddCommutes(t: Tally, j: Kind, k: Kind)
    ensures Add(Add(t, j), k) == Add(Add(t, k), j)
  {
  }

  lemma {:induction false} SumWithout(kind: Round -> Kind, rounds: seq<Round>, i: nat)
    requires i < |rounds|
    ensures Sum(kind, rounds) == Add(Sum(kind, Without(rounds, i)), kind(rounds[i]))
    decreases |rounds|
  {
    var n := |rounds| - 1;
    var front, last := rounds[..n], rounds[n];
    assert rounds == front + [last];
    SumLast(kind, front, last);
    if i == n {
      assert Without(rounds, i) == front;
    } else {
      SumWithout(kind, front, i);
      assert Without(rounds, i) == Without(front, i) + [last];
      SumLast(kind, Without(front, i), last);
      AddCommutes(Sum(kind, Without(front, i)), kind(rounds[i]), kind(last));
    }
  }

  lemma MultisetWithout(rounds: seq<Round>, i: nat)
    requires i < |rounds|
    ensures multiset(Without(rounds, i)) == multiset(rounds) - multiset{rounds[i]}
  {
    assert rounds == rounds[..i] + [rounds[i]] + rounds[i + 1..];
  }

  /** A round of one list, found in a list with the same rounds. */
  lemma Occurrence(a: seq<Round>, b: seq<Round>, n: nat) returns (i: nat)
    requires multiset(a) == multiset(b) && n < |a|
    ensures i < |b| && b[i] == a[n] && multiset(Without(a, n)) == multiset(Without(b, i))
  {
    assert a[n] in multiset(b);
    i :| 0 <= i < |b| && b[i] == a[n];
    MultisetWithout(a, n);
    MultisetWithout(b, i);
  }

  /** The total does not depend on the order of the rounds. */
  lemma {:induction false} SumIgnoresOrder(kind: Round -> Kind, a: seq<Round>, b: seq<Round>)
    requires multiset(a) == multiset(b)
    ensures Sum(kind, a) == Sum(kind, b)
    decreases |a|
  {
    if a == [] {
      assert |multiset(b)| == |b|;
    } else {
      var i := Occurrence(a, b, 0);
      SumIgnoresOrder(kind, Without(a, 0), Without(b, i));
      SumWithout(kind, a, 0);
      SumWithout(kind, b, i);
    }
  }

  /** So neither the estimate nor whether there is one depends on the order of the rounds. */
  lemma EstimateIgnoresOrder(rates: seq<Rate>, a: seq<Round>, b: seq<Round>)
    requires multiset(a) == multiset(b)
    ensures Total(rates, a) == Total(rates, b) && |a| == |b|
    ensures AllValid(rates, a) <==> AllValid(rates, b)
  {
    SumIgnoresOrder(ByRates(rates), a, b);
    assert |multiset(a)| == |a| && |multiset(b)| == |b|;
    assert forall r :: r in a <==> r in multiset(a);
    assert forall r :: r in b <==> r in multiset(b);
  }

  /** The reported subtotal: an amount exactly when something was priced. */
  function KnownSubtotal(t: Tally): Option<string> {
    if t.priced > 0 then Some(PrintAmount(t.subtotal)) else None
  }

  /** The total estimate is given exactly when every recorded round was priced. */
  function TotalEstimate(t: Tally, rounds: nat): Option<string> {
    if t.priced > 0 && t.priced == rounds then KnownSubtotal(t) else None
  }

  /** What an operator reads off the report is the exact total of the card and the rounds. */
  lemma ReportedAmountIsExact(rates: seq<Rate>, rounds: seq<Round>)
    requires AllValid(rates, rounds)
    ensures var t := Total(rates, rounds);
      && (KnownSubtotal(t).Some? <==> exists round <- rounds :: OnCard(rates, round))
      && (KnownSubtotal(t).Some? ==> ReadAmount(KnownSubtotal(t).value) == t.subtotal)
      && (TotalEstimate(t, |rounds|).Some? ==> TotalEstimate(t, |rounds|) == KnownSubtotal(t))
      && (TotalEstimate(t, |rounds|).Some? <==>
            rounds != [] && t.unreported == 0 && t.partial == 0 && t.missing == 0)
  {
    var priced := Where(rates, rounds, IsPriced);
    AmountRoundTrip(Total(rates, rounds).subtotal);
    CountsPartitionRounds(rates, rounds);
    CountsByClass(rates, rounds);
    if exists round <- rounds :: OnCard(rates, round) {
      var i: nat :| i < |rounds| && OnCard(rates, rounds[i]);
      assert i in priced;
    } else {
      assert priced == {};
    }
  }
}
