/**
 Key rotation as it runs: the ledger file changed in place, the retry loop of one scrape
 (`app/firecrawl_backend.py`), and how far a key can be overdrawn within a period.
 */
module KeyRotation {
  import opened Options
  import opened KeyLedger

  // ----- the ledger file -----------------------------------------------------------

  class KeyFile {
    const keys: seq<Key>
    var stored: Option<Usage>

    constructor (keys: seq<Key>, stored: Option<Usage>)
      ensures this.keys == keys && this.stored == stored
    {
      this.keys, this.stored := keys, stored;
    }

    ghost function Now(period: int): Usage
      reads this
    {
      Merge(keys, stored, period)
    }

    method MergeState(period: int) returns (u: Usage)
      ensures u == Now(period)
    {
      var current := stored.Some? && stored.value.period == period;
      var raw := if current then stored.value else Usage(period, None, map[]);
      var entries: map<Label, Entry> := map[];
      var i := 0;
      while i < |keys|
        invariant 0 <= i <= |keys|
        invariant entries == MergedEntries(keys[..i], raw)
      {
        var previous := if keys[i].name in raw.entries then raw.entries[keys[i].name] else Entry(0, false);
        var exhausted := previous.exhausted || keys[i].limit <= previous.credits;
        entries := entries[keys[i].name := Entry(if previous.credits < 0 then 0 else previous.credits, exhausted)];
        assert keys[..i + 1][..i] == keys[..i];
        i := i + 1;
      }
      assert keys[..i] == keys;
      u := Usage(period, None, entries);
      if !current {
        u := u.(active := if keys == [] then None else Some(keys[0].name));
      } else if raw.active.Some? && raw.active.value in entries && !entries[raw.active.value].exhausted {
        u := u.(active := raw.active);
      } else {
        u := u.(active := FirstAvailable(keys, u));
      }
    }

    method AcquireKey(period: int) returns (result: AcquireResult)
      modifies this
      ensures keys == [] ==> result == NotConfigured && stored == old(stored)
      ensures keys != [] ==> stored == Some(AcquireFrom(keys, old(Now(period))).0)
                             && result == AcquireFrom(keys, old(Now(period))).1
    {
      if keys == [] { return NotConfigured; }
      var u := MergeState(period);
      var name := if u.active.Some? then u.active else FirstAvailable(keys, u);
      if name.Some? && name.value in u.entries {
        if LimitOf(keys, name.value) <= u.entries[name.value].credits || u.entries[name.value].exhausted {
          u := u.(entries := u.entries[name.value := u.entries[name.value].(exhausted := true)]);
          name := FirstAvailable(keys, u);
        }
      }
      if name.None? {
        stored := Some(u.(active := None));
        return AllExhausted;
      }
      stored := Some(u.(active := name));
      result := Leased(name.value, Spent(u, name.value));
    }

    method RecordCredits(name: Label, used: int, period: int)
      modifies this
      ensures stored == if keys == [] then old(stored) else Some(RecordIn(keys, old(Now(period)), name, used))
    {
      if keys == [] { return; }
      var u := MergeState(period);
      if name in u.entries {
        var total := u.entries[name].credits + (if used < 0 then 0 else used);
        u := u.(entries := u.entries[name := u.entries[name].(credits := total)]);
        if LimitOf(keys, name) <= total {
          u := u.(entries := u.entries[name := u.entries[name].(exhausted := true)]);
          u := u.(active := FirstAvailable(keys, u));
        } else if u.active.None? {
          u := u.(active := Some(name));
        }
      }
      stored := Some(u);
    }

    method MarkExhausted(name: Label, period: int)
      modifies this
      ensures stored == if keys == [] then old(stored) else Some(MarkIn(keys, old(Now(period)), name))
    {
      if keys == [] { return; }
      var u := MergeState(period);
      if name in u.entries {
        u := u.(entries := u.entries[name := u.entries[name].(exhausted := true)]);
        u := u.(active := FirstAvailable(keys, u));
      }
      stored := Some(u);
    }
  }

  // ----- writing and merging again -------------------------------------------------

  /** The keys that can be used. */
  ghost function Usable(keys: seq<Key>, u: Usage): set<Label> {
    if keys == [] then {}
    else
      var last := keys[|keys| - 1];
      Usable(keys[..|keys| - 1], u) + if Room(last, u) then {last.name} else {}
  }

  lemma {:induction false} UsableIs(keys: seq<Key>, u: Usage)
    ensures Usable(keys, u) == set i | 0 <= i < |keys| && Room(keys[i], u) :: keys[i].name
  {
    if keys != [] {
      UsableIs(keys[..|keys| - 1], u);
    }
  }

  /** Usage that was coherent up to its active key is merged, in its period, into the same entries. */
  lemma MergeKeepsEntries(keys: seq<Key>, u: Usage)
    requires ValidKeys(keys)
    requires forall i :: 0 <= i < |keys| ==> keys[i].name in u.entries && 0 <= u.entries[keys[i].name].credits
    ensures forall i :: 0 <= i < |keys| ==>
              keys[i].name in Merge(keys, Some(u), u.period).entries &&
              Merge(keys, Some(u), u.period).entries[keys[i].name].credits == u.entries[keys[i].name].credits
    ensures Usable(keys, Merge(keys, Some(u), u.period)) == Usable(keys, u)
  {
    MergedEntriesAre(keys, u);
    var v := Merge(keys, Some(u), u.period);
    UsableIs(keys, u);
    UsableIs(keys, v);
    forall i | 0 <= i < |keys| ensures Room(keys[i], v) <==> Room(keys[i], u) {
      assert v.entries[keys[i].name] == MergedEntry(keys[i], u);
    }
  }

  lemma MarkingRemovesOne(keys: seq<Key>, u: Usage, name: Label)
    requires ValidKeys(keys) && Coherent(keys, u) && name in u.entries
    ensures Usable(keys, MarkIn(keys, u, name)) == Usable(keys, u) - {name}
    ensures MarkIn(keys, u, name).entries.Keys == u.entries.Keys && MarkIn(keys, u, name).period == u.period
  {
    var v := MarkIn(keys, u, name);
    UsableIs(keys, u);
    UsableIs(keys, v);
    forall i | 0 <= i < |keys| ensures Room(keys[i], v) <==> Room(keys[i], u) && keys[i].name != name { }
  }

  // ----- the retry loop ------------------------------------------------------------

  /**
   What a scrape with a key gives: a credit error, any other error, or a page and its credits. It
   may depend on the key in any way; no key is asked twice.
   */
  datatype Response = CreditError | OtherError | Page(credits: int)

  datatype ScrapeResult = Scraped(name: Label) | Failed | PoolUnavailable

  /** One round of the loop on the ledger: acquire, scrape, and write what the response asks for. */
  function Round(keys: seq<Key>, u: Usage, response: Response): Usage {
    var (v, result) := AcquireFrom(keys, Merge(keys, Some(u), u.period));
    if !result.Leased? then v
    else
      var w := Merge(keys, Some(v), v.period);
      match response
      case CreditError => MarkIn(keys, w, result.name)
      case OtherError => v
      case Page(credits) => RecordIn(keys, w, result.name, credits)
  }

  /** Within a period the stored usage moves by the round of the acquired key's response. */
  ghost predicate MakesRound(
      keys: seq<Key>, before: Option<Usage>, period: int, key: Option<Label>, respond: Label -> Response,
      after: Option<Usage>) {
    keys != [] && before.Some? && before.value.period == period ==>
      after == Some(Round(keys, before.value, if key.Some? then respond(key.value) else OtherError))
  }

  function AttemptLimit(keys: seq<Key>): int {
    if 8 < |keys| then |keys| else 8
  }

  /** The loop is bounded by eight turns, or one per key if there are more. */
  lemma AttemptsAreEnough(keys: seq<Key>)
    ensures 8 <= AttemptLimit(keys) && |keys| <= AttemptLimit(keys)
    ensures AttemptLimit(keys) == 8 || AttemptLimit(keys) == |keys|
  {
  }

  ghost predicate DistinctLabels(tried: seq<Label>) {
    tried == [] || (tried[|tried| - 1] !in LabelSet(tried[..|tried| - 1]) && DistinctLabels(tried[..|tried| - 1]))
  }

  lemma {:induction false} DistinctLabelsDiffer(tried: seq<Label>, i: int, j: int)
    requires DistinctLabels(tried) && 0 <= i < j < |tried|
    ensures tried[i] != tried[j]
  {
    if j == |tried| - 1 {
      LabelSetHolds(tried[..|tried| - 1], i);
    } else {
      DistinctLabelsDiffer(tried[..|tried| - 1], i, j);
    }
  }

  ghost function LabelSet(tried: seq<Label>): set<Label> {
    if tried == [] then {} else LabelSet(tried[..|tried| - 1]) + {tried[|tried| - 1]}
  }

  lemma {:induction false} LabelSetHolds(tried: seq<Label>, i: int)
    requires 0 <= i < |tried|
    ensures tried[i] in LabelSet(tried)
  {
    if i < |tried| - 1 { LabelSetHolds(tried[..|tried| - 1], i); }
  }

  lemma {:induction false} DistinctAreMany(tried: seq<Label>)
    requires DistinctLabels(tried)
    ensures |LabelSet(tried)| == |tried|
  {
    if tried != [] {
      DistinctAreMany(tried[..|tried| - 1]);
    }
  }

  lemma {:induction false} UsableAreFew(keys: seq<Key>, u: Usage)
    ensures |Usable(keys, u)| <= |keys|
  {
    if keys != [] { UsableAreFew(keys[..|keys| - 1], u); }
  }

  /** One attempt: acquire a key, scrape, and settle the key's credits. `None` if no key was left. */
  method TryOnce(file: KeyFile, period: int, respond: Label -> Response) returns (key: Option<Label>)
    requires ValidKeys(file.keys)
    modifies file
    ensures key.None? <==> old(Usable(file.keys, file.Now(period))) == {}
    ensures key.Some? ==> key.value in old(Usable(file.keys, file.Now(period)))
    ensures key.Some? && respond(key.value) == CreditError ==>
              Usable(file.keys, file.Now(period)) == old(Usable(file.keys, file.Now(period))) - {key.value}
    ensures MakesRound(file.keys, old(file.stored), period, key, respond, file.stored)
  {
    ghost var u := file.Now(period);
    MergeIsCoherent(file.keys, file.stored, period);
    AcquireTrustsTheActiveKey(file.keys, u);
    var lease := file.AcquireKey(period);
    if !lease.Leased? {
      NothingUsable(file.keys, u);
      return None;
    }
    LeaseWasUsable(file.keys, u, lease.name);
    key := Some(lease.name);
    match respond(lease.name)
    case CreditError =>
      CoherentMerge(file.keys, u);
      ghost var v := file.Now(period);
      MarkingRemovesOne(file.keys, v, lease.name);
      MarkedEntriesStayValid(file.keys, v, lease.name);
      file.MarkExhausted(lease.name, period);
      MergeKeepsEntries(file.keys, MarkIn(file.keys, v, lease.name));
    case OtherError =>
    case Page(credits) => file.RecordCredits(lease.name, credits, period);
  }

  lemma MarkedEntriesStayValid(keys: seq<Key>, u: Usage, name: Label)
    requires Coherent(keys, u)
    ensures forall i :: 0 <= i < |keys| ==>
              keys[i].name in MarkIn(keys, u, name).entries && 0 <= MarkIn(keys, u, name).entries[keys[i].name].credits
  {
  }

  /** One turn of the loop: a usable key that was not tried yet, or none because all were. */
  method TryNext(file: KeyFile, period: int, respond: Label -> Response, tried: seq<Label>, ghost usable: set<Label>)
      returns (key: Option<Label>)
    requires ValidKeys(file.keys) && DistinctLabels(tried) && LabelSet(tried) <= usable
    requires Usable(file.keys, file.Now(period)) == usable - LabelSet(tried)
    modifies file
    ensures key.None? ==> LabelSet(tried) == usable
    ensures key.Some? ==>
              && DistinctLabels(tried + [key.value])
              && LabelSet(tried + [key.value]) == LabelSet(tried) + {key.value}
              && LabelSet(tried) + {key.value} <= usable
              && |tried + [key.value]| <= |usable| && (tried + [key.value])[..|tried|] == tried
              && (respond(key.value) == CreditError ==>
                    Usable(file.keys, file.Now(period)) == usable - LabelSet(tried + [key.value]))
  {
    key := TryOnce(file, period, respond);
    if key.Some? {
      OneMoreLabel(tried, key.value, usable);
      assert (tried + [key.value])[..|tried|] == tried;
    }
  }

  method RetryLoop(file: KeyFile, period: int, respond: Label -> Response, attemptLimit: nat, ghost usable: set<Label>)
      returns (result: ScrapeResult, tried: seq<Label>)
    requires ValidKeys(file.keys) && |usable| <= attemptLimit
    requires usable == Usable(file.keys, file.Now(period))
    modifies file
    ensures DistinctLabels(tried) && LabelSet(tried) <= usable
    ensures result.PoolUnavailable? ==> LabelSet(tried) == usable
    ensures result.PoolUnavailable? <==> forall name :: name in usable ==> respond(name) == CreditError
    ensures result.Failed? ==> tried != [] && respond(tried[|tried| - 1]) == OtherError
    ensures result.Scraped? ==> tried != [] && result.name == tried[|tried| - 1] && respond(result.name).Page?
    ensures !result.PoolUnavailable? ==>
              forall name :: name in LabelSet(tried[..|tried| - 1]) ==> respond(name) == CreditError
  {
    tried, result := [], PoolUnavailable;
    while |tried| < attemptLimit
      invariant |tried| <= |usable| && result == PoolUnavailable
      invariant DistinctLabels(tried) && LabelSet(tried) <= usable
      invariant forall name :: name in LabelSet(tried) ==> respond(name) == CreditError
      invariant Usable(file.keys, file.Now(period)) == usable - LabelSet(tried)
      decreases attemptLimit - |tried|
    {
      var key := TryNext(file, period, respond, tried, usable);
      if key.None? { return; }
      tried := tried + [key.value];
      match respond(key.value)
      case CreditError =>
      case OtherError => result := Failed; return;
      case Page(_) => result := Scraped(key.value); return;
    }
    AllTried(tried, usable);
  }

  /**
   One scrape within one period, undisturbed: no key is tried again after its credit error, only
   usable keys are tried, and the loop gives up exactly if every usable key gives a credit error,
   after it has tried them all.
   */
  method ScrapeWithRotation(
      file: KeyFile, period: int, respond: Label -> Response)
    returns (result: ScrapeResult, tried: seq<Label>)
    requires ValidKeys(file.keys)
    modifies file
    ensures forall i, j :: 0 <= i < j < |tried| ==> tried[i] != tried[j]
    ensures LabelSet(tried) <= old(Usable(file.keys, file.Now(period)))
    ensures |tried| <= |file.keys|
    ensures result.PoolUnavailable? ==> LabelSet(tried) == old(Usable(file.keys, file.Now(period)))
    ensures result.PoolUnavailable? <==>
              forall name :: name in old(Usable(file.keys, file.Now(period))) ==> respond(name) == CreditError
    ensures result.Failed? ==> tried != [] && respond(tried[|tried| - 1]) == OtherError
    ensures result.Scraped? ==> tried != [] && result.name == tried[|tried| - 1] && respond(result.name).Page?
    ensures !result.PoolUnavailable? ==>
              forall name :: name in LabelSet(tried[..|tried| - 1]) ==> respond(name) == CreditError
  {
    ghost var usable := Usable(file.keys, file.Now(period));
    UsableAreFew(file.keys, file.Now(period));
    result, tried := RetryLoop(file, period, respond, AttemptLimit(file.keys), usable);
    FewDistinct(tried, usable);
    forall i, j | 0 <= i < j < |tried| ensures tried[i] != tried[j] { DistinctLabelsDiffer(tried, i, j); }
  }

  lemma OneMoreLabel(tried: seq<Label>, name: Label, usable: set<Label>)
    requires DistinctLabels(tried) && LabelSet(tried) <= usable && name in usable - LabelSet(tried)
    ensures DistinctLabels(tried + [name]) && LabelSet(tried + [name]) <= usable
    ensures usable - LabelSet(tried + [name]) == usable - LabelSet(tried) - {name}
    ensures |tried + [name]| <= |usable|
  {
    assert (tried + [name])[..|tried|] == tried;
    FewDistinct(tried + [name], usable);
  }

  lemma FewDistinct(tried: seq<Label>, usable: set<Label>)
    requires DistinctLabels(tried) && LabelSet(tried) <= usable
    ensures |tried| <= |usable|
  {
    DistinctAreMany(tried);
    assert |LabelSet(tried)| + |usable - LabelSet(tried)| == |usable|;
  }

  lemma AllTried(tried: seq<Label>, usable: set<Label>)
    requires DistinctLabels(tried) && LabelSet(tried) <= usable && |usable| <= |tried|
    ensures LabelSet(tried) == usable
  {
    DistinctAreMany(tried);
    assert |LabelSet(tried)| + |usable - LabelSet(tried)| == |usable|;
  }

  lemma NothingUsable(keys: seq<Key>, u: Usage)
    requires keys == [] || (Coherent(keys, u) && u.active.None?)
    ensures Usable(keys, u) == {}
  {
    UsableIs(keys, u);
    forall i | 0 <= i < |keys| ensures !Room(keys[i], u) {
      assert !KeyUsable(keys, u, keys[i].name);
    }
  }

  lemma LeaseWasUsable(keys: seq<Key>, u: Usage, name: Label)
    requires KeyUsable(keys, u, name)
    ensures name in Usable(keys, u) && name in u.entries
  {
    UsableIs(keys, u);
    var i :| 0 <= i < |keys| && keys[i].name == name && Room(keys[i], u);
  }

  lemma CoherentMerge(keys: seq<Key>, u: Usage)
    requires ValidKeys(keys) && Coherent(keys, u)
    ensures Coherent(keys, Merge(keys, Some(u), u.period))
    ensures Merge(keys, Some(u), u.period).entries.Keys == u.entries.Keys
    ensures Usable(keys, Merge(keys, Some(u), u.period)) == Usable(keys, u)
  {
    MergeIsCoherent(keys, Some(u), u.period);
    MergeKeepsEntries(keys, u);
  }

  // ----- how far a key can be overdrawn --------------------------------------------

  /** A lease ends in recorded credits, in a credit error, or in any other error, which writes nothing. */
  datatype PoolEvent = Acquire | Record(name: Label, used: int) | Mark(name: Label) | Abandon(name: Label)

  /** The ledger, and how many leases of one watched key have not been settled. */
  datatype Pool = Pool(usage: Usage, unsettled: int)

  function PoolStep(keys: seq<Key>, watched: Label, s: Pool, e: PoolEvent): Pool {
    var u := Merge(keys, Some(s.usage), s.usage.period);
    match e
    case Acquire =>
      var (v, result) := AcquireFrom(keys, u);
      Pool(v, s.unsettled + if result.Leased? && result.name == watched then 1 else 0)
    case Record(name, used) => Pool(RecordIn(keys, u, name, used), s.unsettled - if name == watched then 1 else 0)
    case Mark(name) => Pool(MarkIn(keys, u, name), s.unsettled - if name == watched then 1 else 0)
    case Abandon(name) => s.(unsettled := s.unsettled - if name == watched then 1 else 0)
  }

  /** Leases end after they were handed out, each costs at most `cost`, and at most `width` overlap. */
  predicate Allowed(watched: Label, s: Pool, e: PoolEvent, s': Pool, cost: int, width: int) {
    && (!e.Acquire? && e.name == watched ==> 0 < s.unsettled)
    && (e.Record? && e.name == watched ==> e.used <= cost)
    && s'.unsettled <= width
  }

  ghost predicate WithinOverdraft(keys: seq<Key>, k: int, s: Pool, cost: int, width: int)
    requires 0 <= k < |keys|
  {
    && 0 <= s.unsettled
    && (forall i :: 0 <= i < |keys| ==> keys[i].name in s.usage.entries && 0 <= s.usage.entries[keys[i].name].credits)
    && s.usage.entries[keys[k].name].credits + cost * s.unsettled <= keys[k].limit - 1 + cost * width
  }

  lemma MergedStaysWithin(keys: seq<Key>, k: int, s: Pool, cost: int, width: int)
    requires ValidKeys(keys) && 0 <= k < |keys| && WithinOverdraft(keys, k, s, cost, width)
    ensures Coherent(keys, Merge(keys, Some(s.usage), s.usage.period))
    ensures WithinOverdraft(keys, k, s.(usage := Merge(keys, Some(s.usage), s.usage.period)), cost, width)
  {
    MergeIsCoherent(keys, Some(s.usage), s.usage.period);
    MergeKeepsEntries(keys, s.usage);
  }

  lemma AcquireStaysWithin(keys: seq<Key>, k: int, u: Usage, unsettled: int, cost: int, width: int)
    requires ValidKeys(keys) && 0 <= k < |keys| && 0 <= cost && Coherent(keys, u)
    requires WithinOverdraft(keys, k, Pool(u, unsettled), cost, width)
    requires u.active == Some(keys[k].name) && unsettled + 1 <= width
    ensures WithinOverdraft(keys, k, Pool(u, unsettled + 1), cost, width)
  {
    var i :| 0 <= i < |keys| && keys[i].name == keys[k].name && Room(keys[i], u);
    assert i == k;
    MulMonotone(cost, unsettled + 1, width);
  }

  lemma RecordStaysWithin(
      keys: seq<Key>, k: int, u: Usage, unsettled: int, name: Label, used: int, cost: int, width: int)
    requires ValidKeys(keys) && 0 <= k < |keys| && 0 <= cost && Coherent(keys, u)
    requires WithinOverdraft(keys, k, Pool(u, unsettled), cost, width)
    requires name == keys[k].name ==> 0 < unsettled && used <= cost
    ensures var left := unsettled - if name == keys[k].name then 1 else 0;
            WithinOverdraft(keys, k, Pool(RecordIn(keys, u, name, used), left), cost, width)
  {
    assert cost * (unsettled - 1) == cost * unsettled - cost;
  }

  lemma MarkStaysWithin(keys: seq<Key>, k: int, u: Usage, unsettled: int, name: Label, cost: int, width: int)
    requires ValidKeys(keys) && 0 <= k < |keys| && 0 <= cost && Coherent(keys, u)
    requires WithinOverdraft(keys, k, Pool(u, unsettled), cost, width)
    requires name == keys[k].name ==> 0 < unsettled
    ensures var left := unsettled - if name == keys[k].name then 1 else 0;
            WithinOverdraft(keys, k, Pool(MarkIn(keys, u, name), left), cost, width)
  {
    assert cost * (unsettled - 1) == cost * unsettled - cost;
  }

  lemma PoolStepStaysWithin(keys: seq<Key>, k: int, s: Pool, e: PoolEvent, cost: int, width: int)
    requires ValidKeys(keys) && 0 <= k < |keys| && 0 <= cost
    requires WithinOverdraft(keys, k, s, cost, width)
    requires Allowed(keys[k].name, s, e, PoolStep(keys, keys[k].name, s, e), cost, width)
    ensures WithinOverdraft(keys, k, PoolStep(keys, keys[k].name, s, e), cost, width)
  {
    var u := Merge(keys, Some(s.usage), s.usage.period);
    MergedStaysWithin(keys, k, s, cost, width);
    match e
    case Acquire =>
      AcquireTrustsTheActiveKey(keys, u);
      if u.active == Some(keys[k].name) { AcquireStaysWithin(keys, k, u, s.unsettled, cost, width); }
    case Record(name, used) => RecordStaysWithin(keys, k, u, s.unsettled, name, used, cost, width);
    case Mark(name) => MarkStaysWithin(keys, k, u, s.unsettled, name, cost, width);
    case Abandon(name) => AbandonStaysWithin(keys, k, s, name, cost, width);
  }

  lemma AbandonStaysWithin(keys: seq<Key>, k: int, s: Pool, name: Label, cost: int, width: int)
    requires ValidKeys(keys) && 0 <= k < |keys| && 0 <= cost && WithinOverdraft(keys, k, s, cost, width)
    requires name == keys[k].name ==> 0 < s.unsettled
    ensures WithinOverdraft(keys, k, s.(unsettled := s.unsettled - if name == keys[k].name then 1 else 0), cost, width)
  {
    assert cost * (s.unsettled - 1) == cost * s.unsettled - cost;
  }

  lemma MulMonotone(a: int, b: int, c: int)
    requires 0 <= a && b <= c
    ensures a * b <= a * c
  {
  }

  /**
   Within one period a key's credits stay below its limit plus the cost of the requests that can be
   under way at once: below limit plus one request's cost when requests follow each other.
   */
  lemma {:induction false} OverdraftIsBounded(
      keys: seq<Key>, k: int, states: seq<Pool>, events: seq<PoolEvent>, cost: int, width: nat)
    requires ValidKeys(keys) && 0 <= k < |keys| && 0 <= cost && |states| == |events| + 1
    requires states[0] == Pool(EmptyUsage(keys, states[0].usage.period), 0)
    requires forall i :: 0 <= i < |events| ==>
               states[i + 1] == PoolStep(keys, keys[k].name, states[i], events[i]) &&
               Allowed(keys[k].name, states[i], events[i], states[i + 1], cost, width)
    ensures WithinOverdraft(keys, k, states[|events|], cost, width)
    ensures KeyLedger.Spent(states[|events|].usage, keys[k].name) < keys[k].limit + cost * width
  {
    var n := |events|;
    if n == 0 {
      MergedEntriesAre(keys, Usage(states[0].usage.period, None, map[]));
      MulMonotone(cost, 0, width);
    } else {
      OverdraftIsBounded(keys, k, states[..n], events[..n - 1], cost, width);
      var last := n - 1;
      assert states[last + 1] == PoolStep(keys, keys[k].name, states[last], events[last]);
      PoolStepStaysWithin(keys, k, states[n - 1], events[n - 1], cost, width);
      MulMonotone(cost, 0, states[n].unsettled);
    }
  }

  // ----- requests that follow each other -------------------------------------------

  function Rounds(keys: seq<Key>, u: Usage, responses: seq<Response>): Usage {
    if responses == [] then u
    else Round(keys, Rounds(keys, u, responses[..|responses| - 1]), responses[|responses| - 1])
  }

  /** A round is a lease and its end, so a watched key that had no lease out has none out after it. */
  lemma RoundStaysWithin(keys: seq<Key>, k: int, u: Usage, response: Response, cost: int)
    requires ValidKeys(keys) && 0 <= k < |keys| && 0 <= cost && WithinOverdraft(keys, k, Pool(u, 0), cost, 1)
    requires response.Page? ==> response.credits <= cost
    ensures WithinOverdraft(keys, k, Pool(Round(keys, u, response), 0), cost, 1)
  {
    var watched := keys[k].name;
    var (v, result) := AcquireFrom(keys, Merge(keys, Some(u), u.period));
    var leased := PoolStep(keys, watched, Pool(u, 0), Acquire);
    PoolStepStaysWithin(keys, k, Pool(u, 0), Acquire, cost, 1);
    if result.Leased? {
      var end := match response
        case CreditError => Mark(result.name)
        case OtherError => Abandon(result.name)
        case Page(credits) => Record(result.name, credits);
      PoolStepStaysWithin(keys, k, leased, end, cost, 1);
    }
  }

  /**
   In sequential use within one period, whatever the responses are, a key's credits stay below
   its limit plus the cost of one request.
   */
  lemma {:induction false} SequentialOverdraftIsBounded(
      keys: seq<Key>, k: int, period: int, responses: seq<Response>, cost: int)
    requires ValidKeys(keys) && 0 <= k < |keys| && 0 <= cost
    requires forall i :: 0 <= i < |responses| && responses[i].Page? ==> responses[i].credits <= cost
    ensures WithinOverdraft(keys, k, Pool(Rounds(keys, EmptyUsage(keys, period), responses), 0), cost, 1)
    ensures KeyLedger.Spent(Rounds(keys, EmptyUsage(keys, period), responses), keys[k].name) < keys[k].limit + cost
  {
    if responses == [] {
      MergedEntriesAre(keys, Usage(period, None, map[]));
    } else {
      var before := responses[..|responses| - 1];
      SequentialOverdraftIsBounded(keys, k, period, before, cost);
      RoundStaysWithin(keys, k, Rounds(keys, EmptyUsage(keys, period), before), responses[|responses| - 1], cost);
    }
  }

  // ----- an exhausted key stays out ------------------------------------------------

  function PoolRun(keys: seq<Key>, u: Usage, es: seq<PoolEvent>): Usage {
    if es == [] then u else PoolStep(keys, "", Pool(PoolRun(keys, u, es[..|es| - 1]), 0), es[|es| - 1]).usage
  }

  /** The ledger knows the key as exhausted. */
  predicate KnownExhausted(u: Usage, name: Label) {
    name in u.entries && u.entries[name].exhausted
  }

  lemma MergeKeepsExhausted(keys: seq<Key>, u: Usage, i: int)
    requires ValidKeys(keys) && 0 <= i < |keys| && KnownExhausted(u, keys[i].name)
    ensures KnownExhausted(Merge(keys, Some(u), u.period), keys[i].name)
  {
    MergedEntryIs(keys, u, i);
  }

  lemma PoolStepKeepsExhausted(keys: seq<Key>, u: Usage, e: PoolEvent, i: int)
    requires ValidKeys(keys) && 0 <= i < |keys| && KnownExhausted(u, keys[i].name)
    ensures KnownExhausted(PoolStep(keys, "", Pool(u, 0), e).usage, keys[i].name)
  {
    MergeKeepsExhausted(keys, u, i);
  }

  lemma {:induction false} ExhaustedStays(keys: seq<Key>, u: Usage, es: seq<PoolEvent>, i: int)
    requires ValidKeys(keys) && 0 <= i < |keys| && KnownExhausted(u, keys[i].name)
    ensures KnownExhausted(PoolRun(keys, u, es), keys[i].name)
  {
    if es != [] {
      ExhaustedStays(keys, u, es[..|es| - 1], i);
      PoolStepKeepsExhausted(keys, PoolRun(keys, u, es[..|es| - 1]), es[|es| - 1], i);
    }
  }

  lemma MarkExhausts(keys: seq<Key>, u: Usage, i: int)
    requires ValidKeys(keys) && 0 <= i < |keys|
    ensures KnownExhausted(PoolStep(keys, "", Pool(u, 0), Mark(keys[i].name)).usage, keys[i].name)
  {
    MergeIsCoherent(keys, Some(u), u.period);
  }

  lemma ExhaustedIsNotLeased(keys: seq<Key>, u: Usage, i: int)
    requires ValidKeys(keys) && 0 <= i < |keys| && KnownExhausted(u, keys[i].name)
    ensures var result := AcquireFrom(keys, Merge(keys, Some(u), u.period)).1;
            result.Leased? ==> result.name != keys[i].name
  {
    var v := Merge(keys, Some(u), u.period);
    MergeIsCoherent(keys, Some(u), u.period);
    MergeKeepsExhausted(keys, u, i);
    LeasesAreUsable(keys, v);
  }

  /**
   Over any interleaving of acquisitions and settlements by any processes within a period, a key
   that was marked exhausted is not leased again.
   */
  lemma MarkedKeyIsNeverLeasedAgain(keys: seq<Key>, u: Usage, name: Label, es: seq<PoolEvent>)
    requires ValidKeys(keys)
    ensures var v := PoolRun(keys, PoolStep(keys, "", Pool(u, 0), Mark(name)).usage, es);
            var result := AcquireFrom(keys, Merge(keys, Some(v), v.period)).1;
            result.Leased? ==> result.name != name
  {
    var marked := PoolStep(keys, "", Pool(u, 0), Mark(name)).usage;
    var v := PoolRun(keys, marked, es);
    if i :| 0 <= i < |keys| && keys[i].name == name {
      MarkExhausts(keys, u, i);
      ExhaustedStays(keys, marked, es, i);
      ExhaustedIsNotLeased(keys, v, i);
    } else {
      MergeIsCoherent(keys, Some(v), v.period);
      LeasesAreUsable(keys, Merge(keys, Some(v), v.period));
    }
  }

  // ----- credits add up ------------------------------------------------------------

  /** The credits a run recorded for a key. */
  function Recorded(es: seq<PoolEvent>, name: Label): nat {
    if es == [] then 0
    else
      var e := es[|es| - 1];
      Recorded(es[..|es| - 1], name) + if e.Record? && e.name == name && 0 < e.used then e.used else 0
  }

  lemma PoolStepAddsWhatIsRecorded(keys: seq<Key>, u: Usage, e: PoolEvent, i: int)
    requires ValidKeys(keys) && 0 <= i < |keys| && keys[i].name in u.entries && 0 <= u.entries[keys[i].name].credits
    ensures var v, name := PoolStep(keys, "", Pool(u, 0), e).usage, keys[i].name;
            && name in v.entries && v.period == u.period
            && v.entries[name].credits - u.entries[name].credits
               == if e.Record? && e.name == name && 0 < e.used then e.used else 0
  {
    var m := Merge(keys, Some(u), u.period);
    MergedUsageIs(keys, u, u.period, i);
    match e
    case Acquire =>
      MergeIsCoherent(keys, Some(u), u.period);
      AcquireTrustsTheActiveKey(keys, m);
    case Record(name, used) =>
      if name in m.entries {
        RecordLeavesOthers(keys, m, name, used, i);
      } else {
        UnknownLabelsAreIgnored(keys, m, name, used);
      }
    case Mark(name) =>
      if name in m.entries { MarkedUsageIs(keys, m, name); } else { UnknownLabelsAreIgnored(keys, m, name, 0); }
    case Abandon(_) =>
  }

  lemma RecordLeavesOthers(keys: seq<Key>, u: Usage, name: Label, used: int, i: int)
    requires ValidKeys(keys) && 0 <= i < |keys| && name in u.entries && keys[i].name in u.entries
    ensures var v := RecordIn(keys, u, name, used);
            && keys[i].name in v.entries && v.period == u.period
            && v.entries[keys[i].name].credits - u.entries[keys[i].name].credits
               == if name == keys[i].name && 0 < used then used else 0
  {
    if name == keys[i].name { RecordedUsageIs(keys, u, i, used); }
  }

  /** Over any run within a period, by any processes, a key's credits are the sum of what was recorded for it. */
  lemma {:induction false} CreditsAddUp(keys: seq<Key>, period: int, es: seq<PoolEvent>, i: int)
    requires ValidKeys(keys) && 0 <= i < |keys|
    ensures var u := PoolRun(keys, EmptyUsage(keys, period), es);
            && u.period == period && keys[i].name in u.entries
            && u.entries[keys[i].name].credits == Recorded(es, keys[i].name)
  {
    if es == [] {
      MergedEntriesAre(keys, Usage(period, None, map[]));
    } else {
      CreditsAddUp(keys, period, es[..|es| - 1], i);
      PoolStepAddsWhatIsRecorded(keys, PoolRun(keys, EmptyUsage(keys, period), es[..|es| - 1]), es[|es| - 1], i);
    }
  }

  /** So a key whose recorded credits reach its limit is not leased again. */
  lemma SpentKeyIsNotLeased(keys: seq<Key>, period: int, es: seq<PoolEvent>, i: int)
    requires ValidKeys(keys) && 0 <= i < |keys| && keys[i].limit <= Recorded(es, keys[i].name)
    ensures var u := PoolRun(keys, EmptyUsage(keys, period), es);
            var result := AcquireFrom(keys, Merge(keys, Some(u), period)).1;
            result.Leased? ==> result.name != keys[i].name
  {
    var u := PoolRun(keys, EmptyUsage(keys, period), es);
    CreditsAddUp(keys, period, es, i);
    MergedUsageIs(keys, u, period, i);
    MergeIsCoherent(keys, Some(u), period);
    LeasesAreUsable(keys, Merge(keys, Some(u), period));
  }
}
