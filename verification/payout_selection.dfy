/** What the pools and notes of a payout must look like to be used: which pools are configured, what a denomination is
    worth, which candidates are accepted, and that an exact plan is paid by a note for every part. */
module PayoutSelection {
  import opened Arithmetic
  import opened Bytes32
  import opened Lists
  import opened PayoutSplit
  import opened Positional
  import opened Splitting
  import opened Text
  import opened Units
  import opened Wrappers

  // ----- The configured pools -----

  lemma LowerIsStable(s: string)
    ensures ToLower(ToLower(s)) == ToLower(s)
  {
    ToLowerAt(s);
    ToLowerAt(ToLower(s));
  }

  lemma LowerIsTrimmed(s: string)
    ensures TrimSpace(ToLower(TrimSpace(s))) == ToLower(TrimSpace(s))
  {
    ToLowerAt(TrimSpace(s));
    TrimIsStable(ToLower(TrimSpace(s)), Spaces);
  }

  lemma CleanIsStable(pool: Pool)
    ensures Clean(Clean(pool)) == Clean(pool)
  {
    TrimIsStable(TrimSpace(pool.denomination), Spaces);
    LowerIsTrimmed(pool.address);
    LowerIsStable(TrimSpace(pool.address));
  }

  /** Some entry of the list has neither its denomination nor its address blank. */
  ghost predicate IsListed(pools: seq<Pool>)
  {
    exists i :: 0 <= i < |pools| && IsWritten(pools[i])
  }

  predicate IsWritten(pool: Pool)
  {
    TrimSpace(pool.denomination) != "" && TrimSpace(pool.address) != ""
  }

  ghost predicate IsOneOf(pool: Pool, pools: seq<Pool>)
  {
    exists i :: 0 <= i < |pools| && IsWritten(pools[i]) && pool == Clean(pools[i])
  }

  /** The single pool is used exactly when the list has no entry that is written in full. */
  lemma SinglePoolIsFallback(config: Config)
    ensures IsListed(config.pools) ==>
              ConfiguredPools(config) != [] && forall pool :: pool in ConfiguredPools(config) ==>
                IsOneOf(pool, config.pools)
    ensures !IsListed(config.pools) ==>
              var denomination, address := TrimSpace(config.denomination), TrimSpace(config.address);
              ConfiguredPools(config)
              == if denomination != "" && address != "" then [Pool(denomination, ToLower(address))] else []
  {
    var cleaned := Mapped(config.pools, Clean);
    var listed := Distinct(cleaned, IsComplete, Key);
    DistinctKeepsEveryKeyOnce(cleaned, IsComplete, Key);
    forall pool | pool in listed ensures IsOneOf(pool, config.pools) {
      var k :| 0 <= k < |listed| && listed[k] == pool;
      assert listed[k] in cleaned;
      var i :| 0 <= i < |cleaned| && cleaned[i] == pool;
      assert IsWritten(config.pools[i]) && pool == Clean(config.pools[i]);
    }
    if IsListed(config.pools) {
      var i :| 0 <= i < |config.pools| && IsWritten(config.pools[i]);
      assert IsComplete(cleaned[i]);
      assert Key(cleaned[i]) in Mapped(listed, Key);
    }
  }

  /** The key of a denomination without a colon has its first colon behind it. */
  ghost predicate ColonAt(key: string, n: nat)
  {
    n < |key| && key[n] == ':' && forall i :: 0 <= i < n ==> key[i] != ':'
  }

  lemma KeyColon(pool: Pool)
    requires ':' !in pool.denomination
    ensures ColonAt(Key(pool), |pool.denomination|)
  {
    forall i | 0 <= i < |pool.denomination| ensures Key(pool)[i] != ':' {
      assert Key(pool)[i] == pool.denomination[i];
    }
  }

  lemma SameKeySamePool(a: Pool, b: Pool)
    requires Key(a) == Key(b) && ':' !in a.denomination && ':' !in b.denomination
    ensures a == b
  {
    KeyColon(a);
    KeyColon(b);
    var n := |a.denomination|;
    assert a.denomination == Key(a)[..n] && a.address == Key(a)[n + 1..];
    assert b.denomination == Key(b)[..n] && b.address == Key(b)[n + 1..];
  }

  /** Every entry that is written in full is used: pools of one denomination at two addresses are two pools. */
  lemma EveryEntryIsUsed(config: Config, i: nat)
    requires forall j :: 0 <= j < |config.pools| ==> ':' !in TrimSpace(config.pools[j].denomination)
    requires i < |config.pools| && IsWritten(config.pools[i])
    ensures Clean(config.pools[i]) in ConfiguredPools(config)
  {
    var pool, pools := Clean(config.pools[i]), ConfiguredPools(config);
    ConfiguredPoolsAreTheListedOnes(config);
    assert Mapped(config.pools, Clean)[i] == pool;
    assert IsListed(config.pools);
    SinglePoolIsFallback(config);
    var k :| 0 <= k < |pools| && Mapped(pools, Key)[k] == Key(pool);
    assert IsOneOf(pools[k], config.pools);
    SameKeySamePool(pools[k], pool);
  }

  /** A configured pool is clean, and notes may name its denomination. */
  lemma ConfiguredIsClean(config: Config, pool: Pool)
    requires pool in ConfiguredPools(config)
    ensures Clean(pool) == pool && IsComplete(pool) && IsConfigured(config, pool.denomination)
  {
    SinglePoolIsFallback(config);
    if IsListed(config.pools) {
      var i :| 0 <= i < |config.pools| && IsWritten(config.pools[i]) && pool == Clean(config.pools[i]);
      CleanIsStable(config.pools[i]);
    } else {
      CleanIsStable(Pool(config.denomination, config.address));
    }
  }

  // ----- Denominations -----

  /** A denomination is worth the number it prints. */
  lemma PrintedDenomination(value: nat, address: string)
    ensures Worth(Pool(PrintInt(value), address)) == value
  {
    PrintedIsTrimmed(value);
    ParsePrinted(value);
  }

  lemma {:induction false} EqualParts(parts: seq<nat>, d: nat)
    requires forall i :: 0 <= i < |parts| ==> parts[i] == d
    ensures Total(parts) == |parts| * d
  {
    if parts != [] {
      EqualParts(parts[1..], d);
    }
  }

  lemma OnePoolTotal(config: Config, pool: Pool, amount: nat, sorted: seq<Pool>, plan: Plan)
    requires ConfiguredPools(config) == [pool] && Worth(pool) > 0 && amount > 0
    requires IsPlan(config, amount, sorted, plan)
    ensures Total(Worths(plan.parts)) <= amount < Total(Worths(plan.parts)) + Worth(pool)
    ensures plan.exact <==> Total(Worths(plan.parts)) == amount
  {
    assert Worths([pool])[0] == Worth(pool);
    WorthsDescend(config, sorted);
    GreedyConserves(Worths(sorted), amount);
    RestIsSmall(Worths(sorted), amount);
    assert Total(Worths(plan.parts)) > 0 ==> plan.parts != [];
  }

  lemma OnePoolParts(config: Config, pool: Pool, amount: nat, sorted: seq<Pool>, plan: Plan)
    requires ConfiguredPools(config) == [pool] && IsPlan(config, amount, sorted, plan)
    ensures forall i :: 0 <= i < |plan.parts| ==> plan.parts[i] == pool
    ensures Total(Worths(plan.parts)) == |plan.parts| * Worth(pool)
  {
    PartsAreConfigured(config, amount, sorted, plan);
    forall i | 0 <= i < |plan.parts| ensures plan.parts[i] == pool {
      assert plan.parts[i] in [pool];
    }
    EqualParts(Worths(plan.parts), Worth(pool));
  }

  /** With one pool of a positive denomination the pool is taken as often as it fits, and the plan is exact when nothing
      is left over. */
  lemma OnePoolPlan(config: Config, pool: Pool, amount: nat, sorted: seq<Pool>, plan: Plan)
    requires ConfiguredPools(config) == [pool] && Worth(pool) > 0 && amount > 0
    requires IsPlan(config, amount, sorted, plan)
    ensures forall i :: 0 <= i < |plan.parts| ==> plan.parts[i] == pool
    ensures |plan.parts| * Worth(pool) <= amount < |plan.parts| * Worth(pool) + Worth(pool)
    ensures plan.exact <==> |plan.parts| * Worth(pool) == amount
  {
    OnePoolTotal(config, pool, amount, sorted, plan);
    OnePoolParts(config, pool, amount, sorted, plan);
  }

  // ----- Candidates -----

  lemma {:induction false} NoFault<T, E>(xs: seq<T>, check: T -> Option<E>)
    ensures FirstFault(xs, check).None? <==> forall i :: 0 <= i < |xs| ==> check(xs[i]).None?
  {
    if xs != [] {
      NoFault(xs[..|xs| - 1], check);
    }
  }

  lemma LowerDigitValue(c: char)
    ensures DigitValue(c) < 16 ==> DigitValue(Lower(c)) == DigitValue(c)
  {
  }

  /** A commitment stays one when it is cleaned. */
  lemma CleanCommitment(text: string)
    requires IsBytes32Hex(text)
    ensures IsBytes32Hex(ToLower(TrimSpace(text)))
  {
    var trimmed := TrimSpace(text);
    var lower := ToLower(trimmed);
    LowerIsTrimmed(text);
    ToLowerAt(trimmed);
    ReadAt(trimmed[2..]);
    ReadAt(lower[2..]);
    forall i | 0 <= i < |lower[2..]| ensures Read(lower[2..])[i] < 16 {
      LowerDigitValue(trimmed[2..][i]);
      assert Read(trimmed[2..])[i] < 16;
      assert lower[2..][i] == Lower(trimmed[2..][i]);
    }
  }

  ghost predicate AreConfigured(config: Config, plan: seq<Pool>)
  {
    forall i :: 0 <= i < |plan| ==> plan[i] in ConfiguredPools(config)
  }

  /** The note for a part that names the part's own pool. */
  function OwnNote(part: Pool, commitment: string): Note
  {
    Note(commitment, part.denomination, part.address)
  }

  lemma OwnNoteIsAccepted(config: Config, plan: seq<Pool>, part: Pool, commitment: string)
    requires part in ConfiguredPools(config) && IsBytes32Hex(commitment)
    ensures CleanNote(OwnNote(part, commitment), plan) == OwnNote(part, ToLower(TrimSpace(commitment)))
    ensures CheckNote(config, CleanNote(OwnNote(part, commitment), plan)).None?
  {
    ConfiguredIsClean(config, part);
    CleanCommitment(commitment);
  }

  ghost predicate AreOwnNotes(candidates: seq<Note>, parts: seq<Pool>)
  {
    && |candidates| == |parts|
    && forall i :: 0 <= i < |parts| ==>
         candidates[i] == OwnNote(parts[i], candidates[i].commitment) && IsBytes32Hex(candidates[i].commitment)
  }

  lemma OwnNotesAreSelected(config: Config, parts: seq<Pool>, candidates: seq<Note>, notes: seq<Note>)
    requires parts != [] && AreConfigured(config, parts) && AreOwnNotes(candidates, parts)
    requires notes == CleanNotes(candidates, parts)
    ensures FirstFault(notes, Checker(config)).None? && Mapped(parts, PoolKey) == Mapped(notes, NoteKey)
  {
    forall i | 0 <= i < |parts| ensures CheckNote(config, notes[i]).None? && NoteKey(notes[i]) == PoolKey(parts[i]) {
      OwnNoteIsAccepted(config, parts, parts[i], candidates[i].commitment);
      assert notes[i] == CleanNote(candidates[i], parts);
    }
    NoFault(notes, Checker(config));
  }

  /** An exact plan is paid when every part has a valid note that names its pool. */
  lemma ExactPlanIsPaid(config: Config, amount: nat, sorted: seq<Pool>, plan: Plan, candidates: seq<Note>)
    requires IsPlan(config, amount, sorted, plan) && plan.exact && AreOwnNotes(candidates, plan.parts)
    ensures CanSelect(config, plan.parts, candidates)
  {
    PartsAreConfigured(config, amount, sorted, plan);
    OwnNotesAreSelected(config, plan.parts, candidates, CleanNotes(candidates, plan.parts));
  }

  lemma PartsAreConfigured(config: Config, amount: nat, sorted: seq<Pool>, plan: Plan)
    requires IsPlan(config, amount, sorted, plan)
    ensures AreConfigured(config, plan.parts)
  {
    SameMembers(sorted, ConfiguredPools(config));
  }

  /** The pool of a cleaned note is as it is compared. */
  lemma CleanedKey(config: Config, plan: seq<Pool>, note: Note)
    requires AreConfigured(config, plan)
    ensures var clean := CleanNote(note, plan);
            NoteKey(clean) == (clean.denomination, clean.address)
  {
    TrimIsStable(TrimSpace(note.denomination), Spaces);
    LowerIsTrimmed(note.address);
    LowerIsStable(TrimSpace(note.address));
    if |plan| == 1 {
      ConfiguredIsClean(config, plan[0]);
    }
  }

  /** A selection names a commitment of 32 bytes for every part, in the pool of the part; and no candidate at all has a
      commitment of another form. */
  lemma SelectedAreValid(config: Config, plan: seq<Pool>, candidates: seq<Note>, selected: seq<Note>,
                         positions: seq<nat>)
    requires AreConfigured(config, plan) && CanSelect(config, plan, candidates)
    requires IsSelection(plan, candidates, selected, positions)
    ensures |selected| == |plan|
    ensures forall i :: 0 <= i < |plan| ==>
              && IsBytes32Hex(selected[i].commitment)
              && selected[i].denomination == plan[i].denomination && selected[i].address == plan[i].address
    ensures forall i :: 0 <= i < |candidates| ==> IsBytes32Hex(ToLower(TrimSpace(candidates[i].commitment)))
  {
    var notes := CleanNotes(candidates, plan);
    NoFault(notes, Checker(config));
    forall i | 0 <= i < |candidates| ensures IsBytes32Hex(ToLower(TrimSpace(candidates[i].commitment))) {
      assert Checker(config)(notes[i]).None?;
    }
    forall i | 0 <= i < |plan|
      ensures && IsBytes32Hex(selected[i].commitment)
              && selected[i].denomination == plan[i].denomination && selected[i].address == plan[i].address
    {
      assert Checker(config)(notes[positions[i]]).None?;
      CleanedKey(config, plan, candidates[positions[i]]);
      ConfiguredIsClean(config, plan[i]);
      assert Mapped(notes, NoteKey)[positions[i]] == Mapped(plan, PoolKey)[i];
    }
  }

  /** A commitment alone is enough for a plan of one part, and never for a longer one. */
  lemma LoneCommitment(config: Config, plan: seq<Pool>, commitment: string)
    requires plan != [] && AreConfigured(config, plan) && IsBytes32Hex(commitment)
    ensures |plan| == 1 ==> CanSelect(config, plan, [Note(commitment, "", "")])
    ensures |plan| > 1 ==>
              FirstFault(CleanNotes([Note(commitment, "", "")], plan), Checker(config)) == Some(MissingFields)
  {
    var candidate := Note(commitment, "", "");
    var notes := CleanNotes([candidate], plan);
    CleanCommitment(commitment);
    ConfiguredIsClean(config, plan[0]);
    CleanedKey(config, plan, candidate);
    assert notes == [CleanNote(candidate, plan)];
    assert notes[..0] == [];
    if |plan| == 1 {
      assert Mapped(plan, PoolKey) == Mapped(notes, NoteKey);
    }
  }
}
