/**
 The Firecrawl key ledger (`app/firecrawl_keys.py`): credits per key and billing period, and
 which key is handed out next. Timestamps, fingerprints and reasons are left out.
 */
module KeyLedger {
  import opened Options

  type Label = string

  datatype Key = Key(name: Label, limit: int)

  datatype Entry = Entry(credits: int, exhausted: bool)

  /** The stored usage: its period, the active key and an entry per key. Periods are compared, never ordered. */
  datatype Usage = Usage(period: int, active: Option<Label>, entries: map<Label, Entry>)

  /** Configured keys have distinct names and room for at least one credit. */
  ghost predicate ValidKeys(keys: seq<Key>) {
    && (forall i :: 0 <= i < |keys| ==> 1 <= keys[i].limit)
    && (forall i, j :: 0 <= i < j < |keys| ==> keys[i].name != keys[j].name)
  }

  predicate Room(k: Key, u: Usage) {
    k.name in u.entries && !u.entries[k.name].exhausted && u.entries[k.name].credits < k.limit
  }

  /** The first configured key that still has credits. */
  function FirstAvailable(keys: seq<Key>, u: Usage): Option<Label> {
    if keys == [] then None
    else if Room(keys[0], u) then Some(keys[0].name)
    else FirstAvailable(keys[1..], u)
  }

  function MergedEntry(k: Key, raw: Usage): Entry {
    var previous := if k.name in raw.entries then raw.entries[k.name] else Entry(0, false);
    Entry(if previous.credits < 0 then 0 else previous.credits, previous.exhausted || k.limit <= previous.credits)
  }

  function MergedEntries(keys: seq<Key>, raw: Usage): map<Label, Entry> {
    if keys == [] then map[]
    else MergedEntries(keys[..|keys| - 1], raw)[keys[|keys| - 1].name := MergedEntry(keys[|keys| - 1], raw)]
  }

  /** A new period, or no usable record, starts from zero with the first key active. */
  function EmptyUsage(keys: seq<Key>, period: int): Usage {
    Usage(period, if keys == [] then None else Some(keys[0].name), MergedEntries(keys, Usage(period, None, map[])))
  }

  function Merge(keys: seq<Key>, raw: Option<Usage>, period: int): Usage {
    if raw.None? || raw.value.period != period then EmptyUsage(keys, period)
    else
      var u := Usage(period, None, MergedEntries(keys, raw.value));
      var active := raw.value.active;
      u.(active := if active.Some? && active.value in u.entries && !u.entries[active.value].exhausted
                   then active else FirstAvailable(keys, u))
  }

  // ----- what every merge establishes ----------------------------------------------

  predicate KeyUsable(keys: seq<Key>, u: Usage, name: Label) {
    exists i :: 0 <= i < |keys| && keys[i].name == name && Room(keys[i], u)
  }

  /**
   Entries are exactly those of the configured keys, a key at its limit is exhausted, and the
   active key can be used; there is no active key exactly when none can be used.
   */
  ghost predicate Coherent(keys: seq<Key>, u: Usage) {
    && (forall name :: name in u.entries <==> exists i :: 0 <= i < |keys| && keys[i].name == name)
    && (forall i :: 0 <= i < |keys| ==>
          && 0 <= u.entries[keys[i].name].credits
          && (keys[i].limit <= u.entries[keys[i].name].credits ==> u.entries[keys[i].name].exhausted))
    && (u.active.Some? ==> KeyUsable(keys, u, u.active.value))
    && (u.active.None? ==> forall name :: !KeyUsable(keys, u, name))
  }

  lemma {:induction false} MergedEntriesAre(keys: seq<Key>, raw: Usage)
    requires ValidKeys(keys)
    ensures forall name :: name in MergedEntries(keys, raw) <==> exists i :: 0 <= i < |keys| && keys[i].name == name
    ensures forall i :: 0 <= i < |keys| ==>
              && keys[i].name in MergedEntries(keys, raw)
              && MergedEntries(keys, raw)[keys[i].name] == MergedEntry(keys[i], raw)
  {
    MergedNamesAre(keys, raw);
    forall i | 0 <= i < |keys|
      ensures keys[i].name in MergedEntries(keys, raw)
              && MergedEntries(keys, raw)[keys[i].name] == MergedEntry(keys[i], raw)
    {
      MergedEntryIs(keys, raw, i);
    }
  }

  lemma {:induction false} MergedNamesAre(keys: seq<Key>, raw: Usage)
    ensures forall name :: name in MergedEntries(keys, raw) <==> exists i :: 0 <= i < |keys| && keys[i].name == name
  {
    if keys != [] {
      var rest := keys[..|keys| - 1];
      MergedNamesAre(rest, raw);
      assert forall i :: 0 <= i < |rest| ==> keys[i] == rest[i];
    }
  }

  lemma {:induction false} MergedEntryIs(keys: seq<Key>, raw: Usage, i: int)
    requires ValidKeys(keys) && 0 <= i < |keys|
    ensures keys[i].name in MergedEntries(keys, raw)
            && MergedEntries(keys, raw)[keys[i].name] == MergedEntry(keys[i], raw)
  {
    var last := |keys| - 1;
    if i < last {
      assert keys[i].name != keys[last].name;
      MergedEntryIs(keys[..last], raw, i);
    }
  }

  lemma {:induction false} RoomMakesAvailable(keys: seq<Key>, u: Usage, i: int)
    requires 0 <= i < |keys| && Room(keys[i], u)
    ensures FirstAvailable(keys, u).Some?
  {
    if i > 0 { RoomMakesAvailable(keys[1..], u, i - 1); }
  }

  lemma {:induction false} AvailableHasRoom(keys: seq<Key>, u: Usage) returns (i: int)
    requires FirstAvailable(keys, u).Some?
    ensures 0 <= i < |keys| && keys[i].name == FirstAvailable(keys, u).value && Room(keys[i], u)
  {
    if Room(keys[0], u) { i := 0; } else { i := AvailableHasRoom(keys[1..], u); i := i + 1; }
  }

  lemma FirstAvailableIsUsable(keys: seq<Key>, u: Usage)
    ensures FirstAvailable(keys, u).Some? ==> KeyUsable(keys, u, FirstAvailable(keys, u).value)
    ensures FirstAvailable(keys, u).None? ==> forall name :: !KeyUsable(keys, u, name)
  {
    if FirstAvailable(keys, u).Some? { var i := AvailableHasRoom(keys, u); }
    forall i | 0 <= i < |keys| && Room(keys[i], u) ensures FirstAvailable(keys, u).Some? {
      RoomMakesAvailable(keys, u, i);
    }
  }

  /** Whatever was stored, a merge repairs it. */
  lemma MergeIsCoherent(keys: seq<Key>, raw: Option<Usage>, period: int)
    requires ValidKeys(keys)
    ensures Coherent(keys, Merge(keys, raw, period))
  {
    var before := if raw.None? || raw.value.period != period then Usage(period, None, map[]) else raw.value;
    MergedEntriesAre(keys, before);
    var u := Merge(keys, raw, period);
    FirstAvailableIsUsable(keys, Usage(period, None, MergedEntries(keys, before)));
    RoomIgnoresActive(keys, u, u.(active := None));
  }

  lemma RoomIgnoresActive(keys: seq<Key>, u: Usage, v: Usage)
    requires u.entries == v.entries
    ensures forall name :: KeyUsable(keys, u, name) <==> KeyUsable(keys, v, name)
  {
    assert forall i :: 0 <= i < |keys| ==> (Room(keys[i], u) <==> Room(keys[i], v));
  }

  // ----- acquire, record, mark -----------------------------------------------------

  datatype AcquireResult = NotConfigured | AllExhausted | Leased(name: Label, credits: int)

  function LimitOf(keys: seq<Key>, name: Label): int {
    if keys == [] then 0 else if keys[0].name == name then keys[0].limit else LimitOf(keys[1..], name)
  }

  function Spent(u: Usage, name: Label): int {
    if name in u.entries then u.entries[name].credits else 0
  }

  function MarkEntry(u: Usage, name: Label): Usage {
    if name in u.entries then u.(entries := u.entries[name := u.entries[name].(exhausted := true)]) else u
  }

  /** The body of the acquisition on merged usage, for at least one configured key. */
  function AcquireFrom(keys: seq<Key>, u: Usage): (Usage, AcquireResult) {
    var preferred := if u.active.Some? then u.active else FirstAvailable(keys, u);
    var rejected := preferred.Some? && preferred.value in u.entries &&
                    (LimitOf(keys, preferred.value) <= Spent(u, preferred.value) ||
                     u.entries[preferred.value].exhausted);
    var v := if rejected then MarkEntry(u, preferred.value) else u;
    var chosen := if rejected then FirstAvailable(keys, v) else preferred;
    if chosen.None? then (v.(active := None), AllExhausted)
    else (v.(active := chosen), Leased(chosen.value, Spent(v, chosen.value)))
  }

  function RecordIn(keys: seq<Key>, u: Usage, name: Label, used: int): Usage {
    if name !in u.entries then u
    else
      var total := u.entries[name].credits + (if used < 0 then 0 else used);
      var added := u.(entries := u.entries[name := u.entries[name].(credits := total)]);
      if LimitOf(keys, name) <= total then
        var full := MarkEntry(added, name);
        full.(active := FirstAvailable(keys, full))
      else if added.active.None? then added.(active := Some(name))
      else added
  }

  function MarkIn(keys: seq<Key>, u: Usage, name: Label): Usage {
    if name !in u.entries then u
    else
      var marked := MarkEntry(u, name);
      marked.(active := FirstAvailable(keys, marked))
  }

  lemma {:induction false} LimitOfIs(keys: seq<Key>, i: int)
    requires ValidKeys(keys) && 0 <= i < |keys|
    ensures LimitOf(keys, keys[i].name) == keys[i].limit
  {
    if i > 0 {
      assert keys[0].name != keys[i].name;
      forall j, k | 0 <= j < k < |keys[1..]| ensures keys[1..][j].name != keys[1..][k].name {
        assert keys[1..][j] == keys[j + 1] && keys[1..][k] == keys[k + 1];
      }
      LimitOfIs(keys[1..], i - 1);
    }
  }

  // ----- what the operations write, spelled out ------------------------------------

  /** The first key in configured order that is not exhausted and has credits left. */
  lemma FirstAvailableIsFirst(keys: seq<Key>, u: Usage, i: int)
    requires ValidKeys(keys) && 0 <= i < |keys| && FirstAvailable(keys, u) == Some(keys[i].name)
    ensures keys[i].name in u.entries
            && !u.entries[keys[i].name].exhausted && u.entries[keys[i].name].credits < keys[i].limit
    ensures forall j :: 0 <= j < i && keys[j].name in u.entries ==>
              u.entries[keys[j].name].exhausted || keys[j].limit <= u.entries[keys[j].name].credits
  {
    var k := FirstRoom(keys, u);
    assert k == i;
  }

  lemma {:induction false} FirstRoom(keys: seq<Key>, u: Usage) returns (k: int)
    requires FirstAvailable(keys, u).Some?
    ensures 0 <= k < |keys| && FirstAvailable(keys, u) == Some(keys[k].name) && Room(keys[k], u)
    ensures forall j :: 0 <= j < k ==> !Room(keys[j], u)
  {
    if Room(keys[0], u) { k := 0; } else { k := FirstRoom(keys[1..], u); k := k + 1; }
  }

  /** Within a period a merge keeps what is stored of the configured keys; a new period starts from zero. */
  lemma MergedUsageIs(keys: seq<Key>, raw: Usage, period: int, i: int)
    requires ValidKeys(keys) && 0 <= i < |keys|
    ensures var u, name := Merge(keys, Some(raw), period), keys[i].name;
            && u.period == period && name in u.entries
            && (raw.period != period ==> u.entries[name] == Entry(0, false) && u.active == Some(keys[0].name))
            && (raw.period == period && name !in raw.entries ==> u.entries[name] == Entry(0, false))
            && (raw.period == period && name in raw.entries ==>
                  && (0 <= raw.entries[name].credits ==> u.entries[name].credits == raw.entries[name].credits)
                  && (raw.entries[name].credits < 0 ==> u.entries[name].credits == 0)
                  && (u.entries[name].exhausted <==>
                        raw.entries[name].exhausted || keys[i].limit <= raw.entries[name].credits))
            && (raw.period == period && raw.active == Some(name) && !u.entries[name].exhausted ==>
                  u.active == Some(name))
  {
    MergedEntriesAre(keys, if raw.period == period then raw else Usage(period, None, map[]));
  }

  lemma MergeFallsBackOnTheFirst(keys: seq<Key>, raw: Usage)
    requires ValidKeys(keys)
    ensures var u := Merge(keys, Some(raw), raw.period);
            (raw.active.None? || raw.active.value !in u.entries || u.entries[raw.active.value].exhausted) ==>
              u.active == FirstAvailable(keys, u)
  {
    var u := Merge(keys, Some(raw), raw.period);
    FirstAvailableLooksAtEntries(keys, u, u.(active := None));
  }

  lemma {:induction false} FirstAvailableLooksAtEntries(keys: seq<Key>, u: Usage, v: Usage)
    requires u.entries == v.entries
    ensures FirstAvailable(keys, u) == FirstAvailable(keys, v)
  {
    if keys != [] { FirstAvailableLooksAtEntries(keys[1..], u, v); }
  }

  /** A record adds the used credits to its key and to no other, and exhausts it at its limit. */
  lemma RecordedUsageIs(keys: seq<Key>, u: Usage, i: int, used: int)
    requires ValidKeys(keys) && 0 <= i < |keys| && keys[i].name in u.entries
    ensures var v, name := RecordIn(keys, u, keys[i].name, used), keys[i].name;
            && v.period == u.period && v.entries.Keys == u.entries.Keys
            && v.entries[name].credits - u.entries[name].credits == (if 0 <= used then used else 0)
            && (v.entries[name].exhausted <==> u.entries[name].exhausted || keys[i].limit <= v.entries[name].credits)
            && (forall other :: other in u.entries && other != name ==> v.entries[other] == u.entries[other])
            && (if keys[i].limit <= v.entries[name].credits then v.active == FirstAvailable(keys, v)
                else if u.active.None? then v.active == Some(name)
                else v.active == u.active)
  {
    LimitOfIs(keys, i);
    var v := RecordIn(keys, u, keys[i].name, used);
    FirstAvailableLooksAtEntries(keys, v, v.(active := u.active));
  }

  /** A mark exhausts its key, leaves its credits and every other key, and activates the first available one. */
  lemma MarkedUsageIs(keys: seq<Key>, u: Usage, name: Label)
    requires name in u.entries
    ensures var v := MarkIn(keys, u, name);
            && v.period == u.period && v.entries.Keys == u.entries.Keys
            && v.entries[name].exhausted && v.entries[name].credits == u.entries[name].credits
            && (forall other :: other in u.entries && other != name ==> v.entries[other] == u.entries[other])
            && v.active == FirstAvailable(keys, v)
  {
    var v := MarkIn(keys, u, name);
    FirstAvailableLooksAtEntries(keys, v, v.(active := u.active));
  }

  /** A label that no key has changes nothing. */
  lemma UnknownLabelsAreIgnored(keys: seq<Key>, u: Usage, name: Label, used: int)
    requires name !in u.entries
    ensures RecordIn(keys, u, name, used) == u && MarkIn(keys, u, name) == u
  {
  }

  /** On merged usage the active key always passes the check that acquisition repeats. */
  lemma AcquireTrustsTheActiveKey(keys: seq<Key>, u: Usage)
    requires ValidKeys(keys) && Coherent(keys, u)
    ensures u.active.Some? ==> AcquireFrom(keys, u) == (u, Leased(u.active.value, Spent(u, u.active.value)))
    ensures u.active.None? ==> AcquireFrom(keys, u) == (u, AllExhausted)
  {
    if u.active.Some? {
      var i :| 0 <= i < |keys| && keys[i].name == u.active.value && Room(keys[i], u);
      LimitOfIs(keys, i);
    } else {
      FirstAvailableIsUsable(keys, u);
    }
  }

  /** A lease is for a key that is not exhausted and has credits left; there is none exactly if no key is. */
  lemma LeasesAreUsable(keys: seq<Key>, u: Usage)
    requires ValidKeys(keys) && Coherent(keys, u)
    ensures AcquireFrom(keys, u).1.Leased? ==> KeyUsable(keys, u, AcquireFrom(keys, u).1.name)
    ensures AcquireFrom(keys, u).1.AllExhausted? <==> forall name :: !KeyUsable(keys, u, name)
  {
    AcquireTrustsTheActiveKey(keys, u);
  }

  /**
   Recording credits may store an exhausted key as the active one. It does so exactly when the
   pool was already exhausted and the recorded key stays below its limit, which means the key had
   been marked exhausted by the provider; the next merge drops it again.
   */
  lemma RecordMayActivateExhausted(keys: seq<Key>, u: Usage, name: Label, used: int, period: int)
    requires ValidKeys(keys) && Coherent(keys, u) && u.period == period
    ensures var v := RecordIn(keys, u, name, used);
            && (v.active.Some? && !KeyUsable(keys, v, v.active.value) <==>
                  && u.active.None? && name in u.entries
                  && u.entries[name].credits + (if used < 0 then 0 else used) < LimitOf(keys, name))
            && (Merge(keys, Some(v), period).active.Some? ==>
                  KeyUsable(keys, Merge(keys, Some(v), period), Merge(keys, Some(v), period).active.value))
  {
    var v := RecordIn(keys, u, name, used);
    MergeIsCoherent(keys, Some(v), period);
    if name in u.entries {
      var i :| 0 <= i < |keys| && keys[i].name == name;
      LimitOfIs(keys, i);
      RecordedActive(keys, u, i, used);
    }
  }

  lemma RecordedActive(keys: seq<Key>, u: Usage, i: int, used: int)
    requires ValidKeys(keys) && Coherent(keys, u) && 0 <= i < |keys|
    ensures var v := RecordIn(keys, u, keys[i].name, used);
            v.active.Some? && !KeyUsable(keys, v, v.active.value) <==>
            u.active.None? && u.entries[keys[i].name].credits + (if used < 0 then 0 else used) < keys[i].limit
  {
    var name := keys[i].name;
    var v := RecordIn(keys, u, name, used);
    LimitOfIs(keys, i);
    var total := u.entries[name].credits + (if used < 0 then 0 else used);
    if keys[i].limit <= total {
      var full := v.(active := u.active);
      FirstAvailableIsUsable(keys, full);
      RoomIgnoresActive(keys, full, v);
    } else if u.active.None? {
      assert !Room(keys[i], u) by { assert !KeyUsable(keys, u, name); }
      forall j | 0 <= j < |keys| && keys[j].name == name ensures j == i { }
    } else {
      var k :| 0 <= k < |keys| && keys[k].name == u.active.value && Room(keys[k], u);
      assert Room(keys[k], v);
    }
  }

  /** The only key was marked exhausted by the provider; recording the credits it used makes it active. */
  lemma RecordedExhaustedKeyIsActive(name: Label)
    ensures var keys, u := [Key(name, 10)], Usage(1, None, map[name := Entry(3, true)]);
            var v := RecordIn(keys, u, name, 2);
            Coherent(keys, u) && v.active.Some? && !KeyUsable(keys, v, v.active.value)
  {
    var keys, u := [Key(name, 10)], Usage(1, None, map[name := Entry(3, true)]);
    assert keys[0].name == name;
    assert Coherent(keys, u);
    LimitOfIs(keys, 0);
    RecordMayActivateExhausted(keys, u, name, 2, 1);
  }
}
