/** Paying a claim out of shielded pools: the payout is split over the pools' fixed denominations, and a submitted
    note is chosen for every part. */
module PayoutSplit {
  import opened Arithmetic
  import opened Bytes32
  import opened Lists
  import opened Matching
  import opened Splitting
  import opened Text
  import opened Units
  import opened Wrappers

  datatype Pool = Pool(denomination: string, address: string)

  datatype Config = Config(pools: seq<Pool>, denomination: string, address: string, decimals: int)

  datatype Plan = Plan(parts: seq<Pool>, exact: bool)

  // ----- The configured pools -----

  function Clean(pool: Pool): Pool
  {
    Pool(TrimSpace(pool.denomination), ToLower(TrimSpace(pool.address)))
  }

  predicate IsComplete(pool: Pool)
  {
    pool.denomination != "" && pool.address != ""
  }

  function Key(pool: Pool): string
  {
    pool.denomination + ":" + pool.address
  }

  /** The listed pools, without blank entries and without repetitions, or the single one when none is left. */
  function ConfiguredPools(config: Config): seq<Pool>
  {
    var listed := Distinct(Mapped(config.pools, Clean), IsComplete, Key);
    var single := Clean(Pool(config.denomination, config.address));
    if listed == [] && IsComplete(single) then [single] else listed
  }

  lemma ConfiguredAreTrimmed(config: Config)
    ensures forall pool :: pool in ConfiguredPools(config) ==> IsTrimmed(pool)
  {
    var cleaned := Mapped(config.pools, Clean);
    DistinctKeepsEveryKeyOnce(cleaned, IsComplete, Key);
    forall pool | pool in ConfiguredPools(config) ensures IsTrimmed(pool) {
      if pool in cleaned {
        var i :| 0 <= i < |cleaned| && cleaned[i] == pool;
        assert pool == Clean(config.pools[i]);
        CleanIsTrimmed(config.pools[i]);
      } else {
        assert pool !in Distinct(cleaned, IsComplete, Key);
        assert pool == Clean(Pool(config.denomination, config.address));
        CleanIsTrimmed(Pool(config.denomination, config.address));
      }
    }
  }

  /** Every complete entry of the list is there under its key, no key is twice, and nothing incomplete is there. */
  lemma ConfiguredPoolsAreTheListedOnes(config: Config)
    ensures var pools := ConfiguredPools(config);
      && KeysDiffer(pools, Key)
      && (forall i :: 0 <= i < |pools| ==> IsComplete(pools[i]))
      && EveryKeyIsKept(pools, Mapped(config.pools, Clean), IsComplete, Key)
  {
    var cleaned := Mapped(config.pools, Clean);
    DistinctKeepsEveryKeyOnce(cleaned, IsComplete, Key);
    if Distinct(cleaned, IsComplete, Key) == [] {
      NothingIsComplete(cleaned);
    }
  }

  lemma NothingIsComplete(cleaned: seq<Pool>)
    requires EveryKeyIsKept([], cleaned, IsComplete, Key)
    ensures forall i :: 0 <= i < |cleaned| ==> !IsComplete(cleaned[i])
  {
    assert Mapped([], Key) == [];
  }

  predicate IsTrimmed(pool: Pool)
  {
    TrimSpace(pool.denomination) == pool.denomination
  }

  lemma CleanIsTrimmed(pool: Pool)
    ensures IsTrimmed(Clean(pool))
  {
  }

  // ----- Denominations -----

  /** A denomination as the pools are sorted by it: text that is no number counts as zero. */
  function Rank(pool: Pool): int
  {
    var number := ParseInt(pool.denomination, 10);
    if number.None? then 0 else number.value
  }

  /** A denomination as it is used: zero when it is no positive number, so that the pool is skipped. */
  function Worth(pool: Pool): nat
  {
    var number := ParseInt(TrimSpace(pool.denomination), 10);
    if number.None? || number.value <= 0 then 0 else number.value
  }

  lemma WorthIsRank(pool: Pool)
    requires IsTrimmed(pool)
    ensures Worth(pool) == if Rank(pool) > 0 then Rank(pool) else 0
  {
  }

  function Worths(pools: seq<Pool>): (worths: seq<nat>)
    ensures |worths| == |pools|
    ensures forall i :: 0 <= i < |pools| ==> worths[i] == Worth(pools[i])
  {
    Mapped(pools, Worth)
  }

  /** `sorted` holds the configured pools in descending order of denomination. */
  ghost predicate SortedPools(config: Config, sorted: seq<Pool>)
  {
    multiset(sorted) == multiset(ConfiguredPools(config)) && IsDescending(sorted, Rank)
  }

  lemma WorthsDescend(config: Config, sorted: seq<Pool>)
    requires SortedPools(config, sorted)
    ensures Descending(Worths(sorted))
    ensures forall d :: d in Worths(sorted) <==> d in Worths(ConfiguredPools(config))
  {
    var pools := ConfiguredPools(config);
    SameMembers(sorted, pools);
    ConfiguredAreTrimmed(config);
    forall i, j | 0 <= i < j < |sorted| ensures Worths(sorted)[i] >= Worths(sorted)[j] {
      assert sorted[i] in pools && sorted[j] in pools;
      WorthIsRank(sorted[i]);
      WorthIsRank(sorted[j]);
    }
    MappedMembers(sorted, pools, Worth);
    MappedMembers(pools, sorted, Worth);
  }

  // ----- The plan -----

  method ListPools(config: Config) returns (pools: seq<Pool>)
    ensures pools == ConfiguredPools(config)
  {
    pools := [];
    var seen: set<string> := {};
    for n := 0 to |config.pools|
      invariant pools == Distinct(Mapped(config.pools[..n], Clean), IsComplete, Key)
      invariant forall key :: key in seen <==> key in Mapped(pools, Key)
    {
      var pool := Clean(config.pools[n]);
      NextEntry(config.pools, n);
      if !IsComplete(pool) || Key(pool) in seen {
        continue;
      }
      MappedAppend(pools, pool, Key);
      seen := seen + {Key(pool)};
      pools := pools + [pool];
    }
    assert config.pools[..|config.pools|] == config.pools;
    var single := Clean(Pool(config.denomination, config.address));
    if pools == [] && IsComplete(single) {
      pools := [single];
    }
  }

  lemma NextEntry(pools: seq<Pool>, n: nat)
    requires n < |pools|
    ensures var kept, pool := Distinct(Mapped(pools[..n], Clean), IsComplete, Key), Clean(pools[n]);
      Distinct(Mapped(pools[..n + 1], Clean), IsComplete, Key)
      == if !IsComplete(pool) || Key(pool) in Mapped(kept, Key) then kept else kept + [pool]
  {
    assert pools[..n + 1] == pools[..n] + [pools[n]];
    MappedAppend(pools[..n], pools[n], Clean);
    var cleaned := Mapped(pools[..n + 1], Clean);
    assert cleaned[..n] == Mapped(pools[..n], Clean);
  }

  /** The quantity of base units that an accepted amount stands for. */
  function Quantity(amount: string, decimals: int): (quantity: nat)
    requires TokenQuantity(amount, decimals).Ok?
    ensures quantity > 0 && ParseInt(TokenQuantity(amount, decimals).value, 10) == Some(quantity as int)
  {
    QuantityIsPositive(amount, decimals);
    ParseInt(TokenQuantity(amount, decimals).value, 10).value
  }

  lemma QuantityIsPositive(amount: string, decimals: int)
    requires TokenQuantity(amount, decimals).Ok?
    ensures var number := ParseInt(TokenQuantity(amount, decimals).value, 10); number.Some? && number.value > 0
  {
    var value := ParsedIsReformatted(amount, decimals, TokenQuantity(amount, decimals).value);
    ParsePrinted(value);
  }

  /** Splits a quantity over the configured pools. */
  method PlanForQuantity(config: Config, quantity: nat) returns (plan: Plan, ghost sorted: seq<Pool>)
    ensures IsPlan(config, quantity, sorted, plan)
  {
    var pools := ListPools(config);
    pools := SortDescending(pools, Rank);
    sorted := pools;
    var parts, rest := TakeGreedily(pools, Worth, quantity);
    plan := Plan(parts, rest == 0 && |parts| > 0);
  }

  /** Splits an amount over the configured pools. The quantity is positive, so the second check of it never fails. */
  method PlanForAmount(config: Config, payoutAmount: string)
    returns (result: Result<Plan, AmountError>, ghost sorted: seq<Pool>)
    ensures TokenQuantity(TrimSpace(payoutAmount), config.decimals).Err? ==>
      result == Err(TokenQuantity(TrimSpace(payoutAmount), config.decimals).error)
    ensures TokenQuantity(TrimSpace(payoutAmount), config.decimals).Ok? ==>
      result.Ok? && IsPlan(config, Quantity(TrimSpace(payoutAmount), config.decimals), sorted, result.value)
  {
    sorted := [];
    var quantity := TokenQuantity(TrimSpace(payoutAmount), config.decimals);
    if quantity.Err? {
      return Err(quantity.error), sorted;
    }
    ghost var amount := Quantity(TrimSpace(payoutAmount), config.decimals);
    var remaining := ParseInt(quantity.value, 10).value;
    assert remaining == amount;
    var plan;
    plan, sorted := PlanForQuantity(config, remaining);
    return Ok(plan), sorted;
  }

  /** The greedy plan for an amount over the configured pools, sorted. */
  ghost predicate IsPlan(config: Config, amount: nat, sorted: seq<Pool>, plan: Plan)
  {
    && SortedPools(config, sorted)
    && Worths(plan.parts) == Greedy(Worths(sorted), amount)
    && AllFrom(plan.parts, sorted, Worth)
    && (plan.exact <==> Rest(Worths(sorted), amount) == 0 && |plan.parts| > 0)
  }

  /** An exact plan adds up to the amount; otherwise what is missing is less than every denomination. If the smallest
      denomination divides the others, the plan is exact whenever any parts add up to the amount; and if of any two
      denominations the smaller divides the larger, no such parts are fewer. */
  lemma PlanIsExact(config: Config, amount: nat, sorted: seq<Pool>, plan: Plan)
    requires amount > 0 && IsPlan(config, amount, sorted, plan)
    ensures var ds := Worths(ConfiguredPools(config));
      && Total(Worths(plan.parts)) <= amount
      && (plan.exact <==> Total(Worths(plan.parts)) == amount)
      && (forall d :: d in ds && d > 0 ==> amount - Total(Worths(plan.parts)) < d)
      && (plan.exact ==> Representable(ds, amount))
      && (LeastDividesAll(ds) && Representable(ds, amount) ==> plan.exact)
      && (Chain(ds) ==> forall parts :: Represents(parts, ds, amount) ==> |plan.parts| <= |parts|)
  {
    WorthsDescend(config, sorted);
    SplitInOrder(Worths(sorted), Worths(ConfiguredPools(config)), amount);
  }

  // ----- The notes -----

  datatype Note = Note(commitment: string, denomination: string, address: string)

  datatype SelectError =
    | EmptyPlan
    | BadCommitment
    | MissingFields
    | UnknownDenomination(denomination: string)
    | MissingNote(denomination: string)

  datatype PayoutError = BadAmount(amount: AmountError) | NotExact | NoSelection(selection: SelectError)

  /** A submitted note, cleaned; for a plan of one part the pool may be left out. */
  function CleanNote(note: Note, plan: seq<Pool>): Note
  {
    var denomination, address := TrimSpace(note.denomination), ToLower(TrimSpace(note.address));
    Note(ToLower(TrimSpace(note.commitment)),
         if denomination == "" && |plan| == 1 then plan[0].denomination else denomination,
         if address == "" && |plan| == 1 then plan[0].address else address)
  }

  predicate IsConfigured(config: Config, denomination: string)
  {
    var text := TrimSpace(denomination);
    || (exists i :: 0 <= i < |config.pools| && TrimSpace(config.pools[i].denomination) == text)
    || (text != "" && text == TrimSpace(config.denomination) && TrimSpace(config.address) != "")
  }

  function CheckNote(config: Config, note: Note): Option<SelectError>
  {
    if !IsBytes32Hex(note.commitment) then Some(BadCommitment)
    else if note.denomination == "" || note.address == "" then Some(MissingFields)
    else if !IsConfigured(config, note.denomination) then Some(UnknownDenomination(note.denomination))
    else None
  }

  function CleanNotes(notes: seq<Note>, plan: seq<Pool>): seq<Note>
  {
    Mapped(notes, Cleaner(plan))
  }

  function Cleaner(plan: seq<Pool>): Note -> Note
  {
    (note: Note) => CleanNote(note, plan)
  }

  function Checker(config: Config): Note -> Option<SelectError>
  {
    (note: Note) => CheckNote(config, note)
  }

  /** The pool that a note or a part belongs to: its denomination and its address, in lower case. */
  function NoteKey(note: Note): (string, string)
  {
    (TrimSpace(note.denomination), ToLower(TrimSpace(note.address)))
  }

  function PoolKey(pool: Pool): (string, string)
  {
    (TrimSpace(pool.denomination), ToLower(TrimSpace(pool.address)))
  }

  function NoteWorth(note: Note): nat
  {
    Worth(Pool(note.denomination, note.address))
  }

  /** `positions` says which candidate was selected for each part. */
  ghost predicate IsSelection(plan: seq<Pool>, candidates: seq<Note>, selected: seq<Note>, positions: seq<nat>)
  {
    var notes := CleanNotes(candidates, plan);
    IsMatching(positions, Mapped(plan, PoolKey), Mapped(notes, NoteKey)) && IsPicked(notes, positions, selected)
  }

  /** All candidates are valid, and counted with multiplicity every part finds a candidate of its pool. */
  ghost predicate CanSelect(config: Config, plan: seq<Pool>, candidates: seq<Note>)
  {
    var notes := CleanNotes(candidates, plan);
    && plan != [] && FirstFault(notes, Checker(config)).None?
    && multiset(Mapped(plan, PoolKey)) <= multiset(Mapped(notes, NoteKey))
  }

  /** The first part whose pool has fewer candidates than the parts up to it ask for. */
  ghost predicate IsFirstUnmatched(plan: seq<Pool>, candidates: seq<Note>, n: nat)
  {
    var wanted, offered := Mapped(plan, PoolKey), Mapped(CleanNotes(candidates, plan), NoteKey);
    && n < |plan|
    && multiset(wanted[..n]) <= multiset(offered)
    && !(multiset(wanted[..n + 1]) <= multiset(offered))
  }

  /** Selects a note for every part of a plan. Otherwise the first faulty candidate is reported, or the denomination of
      the first part that finds no note. */
  method SelectCommitments(config: Config, plan: seq<Pool>, candidates: seq<Note>)
    returns (result: Result<seq<Note>, SelectError>, ghost positions: seq<nat>)
    ensures result.Ok? <==> CanSelect(config, plan, candidates)
    ensures plan == [] ==> result == Err(EmptyPlan)
    ensures plan != [] && FirstFault(CleanNotes(candidates, plan), Checker(config)).Some? ==>
      result == Err(FirstFault(CleanNotes(candidates, plan), Checker(config)).value)
    ensures plan != [] && FirstFault(CleanNotes(candidates, plan), Checker(config)).None? && result.Err? ==>
      exists n: nat :: IsFirstUnmatched(plan, candidates, n) && result.error == MissingNote(plan[n].denomination)
    ensures result.Ok? ==> IsSelection(plan, candidates, result.value, positions)
  {
    positions := [];
    if plan == [] {
      return Err(EmptyPlan), positions;
    }
    var cleaned := CleanAndCheck(candidates, Cleaner(plan), Checker(config));
    if cleaned.Err? {
      return Err(cleaned.error), positions;
    }
    var matched := MatchFirstFit(Mapped(plan, PoolKey), Mapped(cleaned.value, NoteKey));
    if matched.Err? {
      assert IsFirstUnmatched(plan, candidates, matched.error);
      return Err(MissingNote(plan[matched.error].denomination)), positions;
    }
    var selected := Pick(cleaned.value, matched.value);
    return Ok(selected), matched.value;
  }

  /** Selected notes are worth what the parts are. */
  lemma SelectionIsWorthThePlan(plan: seq<Pool>, candidates: seq<Note>, selected: seq<Note>, positions: seq<nat>)
    requires IsSelection(plan, candidates, selected, positions)
    ensures Mapped(selected, NoteWorth) == Worths(plan)
  {
  }

  /** The notes come from distinct candidates, and together are worth the amount. */
  ghost predicate PaysExactly(amount: nat, candidates: seq<Note>, notes: seq<Note>, positions: seq<nat>)
  {
    && Total(Mapped(notes, NoteWorth)) == amount
    && |positions| == |notes|
    && (forall i, j :: 0 <= i < j < |positions| ==> positions[i] != positions[j])
    && (forall i :: 0 <= i < |positions| ==>
          positions[i] < |candidates| && notes[i].commitment == ToLower(TrimSpace(candidates[positions[i]].commitment)))
  }

  lemma SelectionPaysExactly(amount: nat, plan: seq<Pool>, candidates: seq<Note>, selected: seq<Note>,
                             positions: seq<nat>)
    requires IsSelection(plan, candidates, selected, positions) && Total(Worths(plan)) == amount
    ensures PaysExactly(amount, candidates, selected, positions)
  {
    SelectionIsWorthThePlan(plan, candidates, selected, positions);
    forall i | 0 <= i < |positions|
      ensures && positions[i] < |candidates|
              && selected[i].commitment == ToLower(TrimSpace(candidates[positions[i]].commitment))
    {
      assert selected[i] == CleanNotes(candidates, plan)[positions[i]];
    }
  }

  /** The notes that a claim is paid with: the amount split exactly, and a candidate selected for every part. `plan` is
      the split of an amount that is accepted. */
  method NotesForPayout(config: Config, payoutAmount: string, candidates: seq<Note>)
    returns (result: Result<seq<Note>, PayoutError>, ghost sorted: seq<Pool>, ghost plan: Plan,
             ghost positions: seq<nat>)
    ensures TokenQuantity(TrimSpace(payoutAmount), config.decimals).Err? ==>
      result == Err(BadAmount(TokenQuantity(TrimSpace(payoutAmount), config.decimals).error))
    ensures TokenQuantity(TrimSpace(payoutAmount), config.decimals).Ok? ==>
      && IsPlan(config, Quantity(TrimSpace(payoutAmount), config.decimals), sorted, plan)
      && (!plan.exact ==> result == Err(NotExact))
      && (plan.exact ==> (result.Ok? <==> CanSelect(config, plan.parts, candidates)))
      && (plan.exact && result.Err? ==> result.error.NoSelection?)
    ensures result.Ok? ==>
      && TokenQuantity(TrimSpace(payoutAmount), config.decimals).Ok?
      && PaysExactly(Quantity(TrimSpace(payoutAmount), config.decimals), candidates, result.value, positions)
  {
    plan, positions := Plan([], false), [];
    var planned;
    planned, sorted := PlanForAmount(config, payoutAmount);
    if planned.Err? {
      return Err(BadAmount(planned.error)), sorted, plan, positions;
    }
    plan := planned.value;
    if !planned.value.exact {
      return Err(NotExact), sorted, plan, positions;
    }
    ghost var amount := Quantity(TrimSpace(payoutAmount), config.decimals);
    PlanIsExact(config, amount, sorted, plan);
    var selection;
    selection, positions := SelectCommitments(config, planned.value.parts, candidates);
    if selection.Err? {
      return Err(NoSelection(selection.error)), sorted, plan, positions;
    }
    SelectionPaysExactly(amount, plan.parts, candidates, selection.value, positions);
    return Ok(selection.value), sorted, plan, positions;
  }
}
