/** How IOUSBCompositeDriver.c picks the configuration of a device: by a preferred value, failing
    that by a list of preferred interfaces, failing that by power. */
module ConfigChoice {

  datatype Option<T> = None | Some(value: T)

  // What is read of a configuration descriptor: its number and the power it asks for.
  datatype Config = Config(number: nat, maxPower: nat)

  // A configuration whose descriptor cannot be read is None.
  type Configs = seq<Option<Config>>

  // The interface a configuration is asked for; 0xffff stands for any.
  datatype Request = Request(cls: nat, subClass: nat, protocol: nat)

  // An entry of the list of preferred interfaces. All its numbers are bytes.
  datatype Entry = Entry(priority: Option<nat>, cls: Option<nat>, subClass: Option<nat>, protocol: Option<nat>)

  type Entries = seq<Option<Entry>>

  const NO_DEVICE := -536870208
  const NOT_RESPONDING := -536870163
  const NO_POWER := -536854435

  // ---------- by value ----------

  // Configuration i is the first with this number, and all up to it can be read.
  predicate FirstWithValue(configs: Configs, value: nat, i: nat) {
    && i < |configs|
    && (forall j :: 0 <= j <= i ==> configs[j].Some? && (configs[j].value.number == value <==> j == i))
  }

  predicate NoneWithValue(configs: Configs, value: nat) {
    forall j :: 0 <= j < |configs| ==> configs[j].Some? && configs[j].value.number != value
  }

  // Configuration i cannot be read, and none before it has this number.
  predicate UnreadableBeforeValue(configs: Configs, value: nat, i: nat) {
    && i < |configs| && configs[i].None?
    && (forall j :: 0 <= j < i ==> configs[j].Some? && configs[j].value.number != value)
  }

  // The driver's own property counts before that of the device, and zero is no preference.
  function PreferredValue(own: Option<nat>, device: Option<nat>): nat {
    if own.Some? then own.value else if device.Some? then device.value else 0
  }

  method FromPreferredConfiguration(configs: Configs, own: Option<nat>, device: Option<nat>, start: nat)
    returns (status: int, index: nat, found: bool)
    ensures status in {0, NOT_RESPONDING} && (!found ==> index == start) && (found ==> status == 0)
    ensures own.Some? && found ==> own.value != 0 && FirstWithValue(configs, own.value, index)
    ensures own.None? && found ==> device.Some? && device.value != 0 && FirstWithValue(configs, device.value, index)
    ensures own == Some(0) || (own.None? && (device.None? || device == Some(0))) ==> status == 0 && !found
    ensures var value := PreferredValue(own, device);
      && (found ==> value != 0 && FirstWithValue(configs, value, index))
      && (!found && status == 0 ==> value == 0 || NoneWithValue(configs, value))
      && (status != 0 ==> value != 0 && exists i :: UnreadableBeforeValue(configs, value, i))
  {
    status, index, found := 0, start, false;
    var value := PreferredValue(own, device);
    if value == 0 {
      return;
    }
    var i := 0;
    while i < |configs|
      invariant i <= |configs|
      invariant forall j :: 0 <= j < i ==> configs[j].Some? && configs[j].value.number != value
    {
      if configs[i].None? {
        assert UnreadableBeforeValue(configs, value, i);
        return NOT_RESPONDING, start, false;
      }
      if configs[i].value.number == value {
        return 0, i, true;
      }
      i := i + 1;
    }
  }

  // ---------- by interface ----------

  // Whether configuration i has such an interface, as the device object finds it.
  type Finder = (nat, Request) -> bool

  // Entries without a class, or with a priority that is not in 1..10, do not count.
  predicate Usable(entries: Entries, e: nat) {
    && e < |entries| && entries[e].Some? && entries[e].value.cls.Some?
    && entries[e].value.priority.Some? && 1 <= entries[e].value.priority.value <= 10
  }

  function RequestOf(entry: Entry): Request
    requires entry.cls.Some?
  {
    Request(entry.cls.value, OrAny(entry.subClass), OrAny(entry.protocol))
  }

  function OrAny(n: Option<nat>): nat {
    if n.Some? then n.value else 0xffff
  }

  function RequestAt(entries: Entries, e: nat): Request
    requires Usable(entries, e)
  {
    RequestOf(entries[e].value)
  }

  // Entry a is looked at before entry b.
  predicate Sooner(entries: Entries, a: nat, b: nat)
    requires Usable(entries, a) && Usable(entries, b)
  {
    var p, q := entries[a].value.priority.value, entries[b].value.priority.value;
    p < q || (p == q && a < b)
  }

  predicate FirstWithInterface(configs: Configs, has: Finder, request: Request, i: nat) {
    && i < |configs| && configs[i].Some? && has(i, request)
    && (forall j :: 0 <= j < i ==> configs[j].Some? && !has(j, request))
  }

  predicate NoneWithInterface(configs: Configs, has: Finder, request: Request) {
    forall j :: 0 <= j < |configs| ==> configs[j].Some? && !has(j, request)
  }

  predicate UnreadableBeforeInterface(configs: Configs, has: Finder, request: Request, i: nat) {
    && i < |configs| && configs[i].None?
    && (forall j :: 0 <= j < i ==> configs[j].Some? && !has(j, request))
  }

  // No entry looked at before e is met by any configuration, and all configurations can be read.
  predicate AllSoonerFail(configs: Configs, entries: Entries, has: Finder, e: nat)
    requires Usable(entries, e)
  {
    forall a :: 0 <= a < |entries| && Usable(entries, a) && Sooner(entries, a, e) ==>
      NoneWithInterface(configs, has, RequestAt(entries, a))
  }

  predicate AllFail(configs: Configs, entries: Entries, has: Finder) {
    forall a :: 0 <= a < |entries| && Usable(entries, a) ==>
      NoneWithInterface(configs, has, RequestAt(entries, a))
  }

  // Entry a comes before position e of the round for this priority.
  predicate Done(entries: Entries, a: nat, priority: nat, e: nat)
    requires Usable(entries, a)
  {
    var p := entries[a].value.priority.value;
    p < priority || (p == priority && a < e)
  }

  // The innermost loop: the configurations in turn, for one entry.
  method TryEntry(configs: Configs, has: Finder, request: Request) returns (status: int, index: nat, found: bool)
    ensures status in {0, NOT_RESPONDING} && (found ==> status == 0)
    ensures found ==> FirstWithInterface(configs, has, request, index)
    ensures !found && status == 0 ==> NoneWithInterface(configs, has, request)
    ensures status != 0 ==> UnreadableBeforeInterface(configs, has, request, index)
  {
    index := 0;
    while index < |configs|
      invariant index <= |configs|
      invariant forall j :: 0 <= j < index ==> configs[j].Some? && !has(j, request)
    {
      if configs[index].None? {
        return NOT_RESPONDING, index, false;
      }
      if has(index, request) {
        return 0, index, true;
      }
      index := index + 1;
    }
    status, found := 0, false;
  }

  // The first loop: the highest priority in use, not counting those above ten.
  method HighestPriority(entries: Entries) returns (highest: nat)
    ensures highest <= 10
    ensures forall e :: 0 <= e < |entries| && Usable(entries, e) ==> entries[e].value.priority.value <= highest
  {
    highest := 0;
    for i := 0 to |entries|
      invariant highest <= 10
      invariant forall e :: 0 <= e < i && Usable(entries, e) ==> entries[e].value.priority.value <= highest
    {
      if entries[i].Some? && entries[i].value.priority.Some? {
        var p := entries[i].value.priority.value;
        if p < 11 && highest < p {
          highest := p;
        }
      }
    }
  }

  /** The winner is the first configuration to meet an entry of the list, taking the entries by
      priority and, within a priority, in order. The list has fewer than 256 entries. */
  method FromPreferredInterface(configs: Configs, entries: Entries, has: Finder, start: nat)
    returns (status: int, index: nat, found: bool, ghost entry: nat)
    requires |entries| < 256
    ensures status in {0, NOT_RESPONDING} && (!found ==> index == start) && (found ==> status == 0)
    ensures found || status != 0 ==> Usable(entries, entry) && AllSoonerFail(configs, entries, has, entry)
    ensures found ==> FirstWithInterface(configs, has, RequestAt(entries, entry), index)
    ensures !found && status == 0 ==> AllFail(configs, entries, has)
    ensures status != 0 ==> exists i :: UnreadableBeforeInterface(configs, has, RequestAt(entries, entry), i)
  {
    status, index, found, entry := 0, start, false, 0;
    var highest := HighestPriority(entries);
    var priority := 1;
    while priority <= highest
      invariant 1 <= priority <= highest + 1
      invariant forall a :: 0 <= a < |entries| && Usable(entries, a) && entries[a].value.priority.value < priority ==>
        NoneWithInterface(configs, has, RequestAt(entries, a))
    {
      var e := 0;
      while e < |entries|
        invariant e <= |entries|
        invariant forall a :: 0 <= a < |entries| && Usable(entries, a) && Done(entries, a, priority, e) ==>
          NoneWithInterface(configs, has, RequestAt(entries, a))
      {
        if entries[e].Some? && entries[e].value.priority == Some(priority) && entries[e].value.cls.Some? {
          var s, i, ok := TryEntry(configs, has, RequestOf(entries[e].value));
          if s != 0 {
            assert UnreadableBeforeInterface(configs, has, RequestAt(entries, e), i);
            return s, start, false, e;
          }
          if ok {
            return 0, i, true, e;
          }
        }
        e := e + 1;
      }
      priority := priority + 1;
    }
  }

  // ---------- by power ----------

  // At super speed the descriptor counts in larger units.
  function Need(config: Config, speed: nat): nat {
    if speed == 3 then 4 * config.maxPower else config.maxPower
  }

  // available holds what the bus can supply at the moment each configuration is looked at.
  predicate Affordable(configs: Configs, available: seq<int>, speed: nat, i: nat)
    requires |available| == |configs|
  {
    i < |configs| && configs[i].Some? && Need(configs[i].value, speed) <= available[i]
  }

  // Configuration i has the greatest need that can be met, and is the first with that need.
  predicate FirstOfMostPower(configs: Configs, available: seq<int>, speed: nat, i: nat)
    requires |available| == |configs|
  {
    && Affordable(configs, available, speed, i)
    && (forall j :: 0 <= j < |configs| && Affordable(configs, available, speed, j) ==>
          && Need(configs[j].value, speed) <= Need(configs[i].value, speed)
          && (j < i ==> Need(configs[j].value, speed) < Need(configs[i].value, speed)))
  }

  predicate NoneAffordable(configs: Configs, available: seq<int>, speed: nat)
    requires |available| == |configs|
  {
    forall j :: 0 <= j < |configs| ==> !Affordable(configs, available, speed, j)
  }

  predicate AllReadable(configs: Configs) {
    forall j :: 0 <= j < |configs| ==> configs[j].Some?
  }

  method FromPowerRequirements(configs: Configs, available: seq<int>, speed: nat, start: nat)
    returns (status: int, index: nat, found: bool)
    requires |available| == |configs|
    ensures status in {0, NO_POWER, NOT_RESPONDING} && (!found ==> index == start)
    ensures status == NOT_RESPONDING <==> !AllReadable(configs)
    ensures status == 0 ==> found && FirstOfMostPower(configs, available, speed, index)
    ensures status == 0 ==> (if speed == 3 then 4 else 1) * configs[index].value.maxPower <= available[index]
    ensures status == 0 ==> forall j :: 0 <= j < |configs| ==>
      ((if speed == 3 then 4 else 1) * configs[j].value.maxPower <= available[j] ==>
        configs[j].value.maxPower <= configs[index].value.maxPower)
    ensures status == NO_POWER ==> !found && NoneAffordable(configs, available, speed)
  {
    status, index, found := NO_POWER, start, false;
    var best := -1;
    for i := 0 to |configs|
      invariant AllReadable(configs[..i]) && -1 <= best
      invariant status == if found then 0 else NO_POWER
      invariant if found then index < i && Affordable(configs, available, speed, index) && best == Need(configs[index].value, speed)
        else index == start && best == -1
      invariant forall j :: 0 <= j < i && Affordable(configs, available, speed, j) ==>
        found && Need(configs[j].value, speed) <= best && (j < index ==> Need(configs[j].value, speed) < best)
    {
      if configs[i].None? {
        return NOT_RESPONDING, index, found;
      }
      var need := Need(configs[i].value, speed);
      if available[i] >= need && need > best {
        index, found, status, best := i, true, 0, need;
      }
    }
  }

  // ---------- the choice ----------

  // Everything the choice depends on.
  datatype Device = Device(configs: Configs, own: Option<nat>, device: Option<nat>, entries: Entries,
    available: seq<int>, speed: nat)

  predicate WellFormed(d: Device) {
    |d.available| == |d.configs| && |d.entries| < 256
  }

  ghost predicate ByValue(d: Device, i: nat) {
    PreferredValue(d.own, d.device) != 0 && FirstWithValue(d.configs, PreferredValue(d.own, d.device), i)
  }

  ghost predicate NotByValue(d: Device) {
    PreferredValue(d.own, d.device) == 0 || NoneWithValue(d.configs, PreferredValue(d.own, d.device))
  }

  ghost predicate ByEntry(d: Device, has: Finder, e: nat, i: nat) {
    && Usable(d.entries, e) && AllSoonerFail(d.configs, d.entries, has, e)
    && FirstWithInterface(d.configs, has, RequestAt(d.entries, e), i)
  }

  ghost predicate ByInterface(d: Device, has: Finder, i: nat) {
    exists e :: ByEntry(d, has, e, i)
  }

  ghost predicate ByPower(d: Device, has: Finder, i: nat)
    requires WellFormed(d)
  {
    && AllFail(d.configs, d.entries, has) && AllReadable(d.configs)
    && FirstOfMostPower(d.configs, d.available, d.speed, i)
  }

  /** What it means for configuration i to be the right one. */
  ghost predicate Best(d: Device, has: Finder, i: nat)
    requires WellFormed(d)
  {
    if |d.configs| == 1 then i == 0
    else ByValue(d, i) || (NotByValue(d) && (ByInterface(d, has, i) || ByPower(d, has, i)))
  }

  lemma ValueIsUnique(d: Device, i: nat, j: nat)
    requires ByValue(d, i)
    ensures !NotByValue(d) && (ByValue(d, j) ==> i == j)
  {
    assert d.configs[i].value.number == PreferredValue(d.own, d.device);
    if ByValue(d, j) {
      assert d.configs[j].value.number == PreferredValue(d.own, d.device);
    }
  }

  lemma NoValueComesLast(d: Device, i: nat)
    requires NotByValue(d)
    ensures !ByValue(d, i)
  {
    if i < |d.configs| {
      assert d.configs[i] == d.configs[i];
    }
  }

  lemma FirstIsOne(configs: Configs, has: Finder, request: Request, i: nat)
    requires FirstWithInterface(configs, has, request, i)
    ensures !NoneWithInterface(configs, has, request)
  {}

  lemma EntryIsUnique(d: Device, has: Finder, e: nat, i: nat, f: nat, j: nat)
    requires ByEntry(d, has, e, i) && ByEntry(d, has, f, j)
    ensures i == j
  {
    FirstIsOne(d.configs, has, RequestAt(d.entries, e), i);
    FirstIsOne(d.configs, has, RequestAt(d.entries, f), j);
  }

  lemma PowerComesLast(d: Device, has: Finder, i: nat)
    requires AllFail(d.configs, d.entries, has)
    ensures !ByInterface(d, has, i)
  {
    forall e: nat | Usable(d.entries, e)
      ensures !ByEntry(d, has, e, i)
    {
      assert NoneWithInterface(d.configs, has, RequestAt(d.entries, e));
    }
  }

  lemma PowerIsUnique(d: Device, has: Finder, i: nat, j: nat)
    requires WellFormed(d) && ByPower(d, has, i) && ByPower(d, has, j)
    ensures i == j
  {
    assert Affordable(d.configs, d.available, d.speed, i) && Affordable(d.configs, d.available, d.speed, j);
  }

  /** There is never more than one right configuration. */
  lemma BestIsUnique(d: Device, has: Finder, i: nat, j: nat)
    requires WellFormed(d) && Best(d, has, i) && Best(d, has, j)
    ensures i == j
  {
    if |d.configs| != 1 {
      if ByValue(d, i) {
        ValueIsUnique(d, i, j);
      } else if ByValue(d, j) {
        ValueIsUnique(d, j, i);
      } else if AllFail(d.configs, d.entries, has) {
        PowerComesLast(d, has, i);
        PowerComesLast(d, has, j);
        PowerIsUnique(d, has, i, j);
      } else {
        var e :| ByEntry(d, has, e, i);
        var f :| ByEntry(d, has, f, j);
        EntryIsUnique(d, has, e, i, f, j);
      }
    }
  }

  // ---------- what counts before what ----------

  /** Where the driver has a property of its own, what the device says makes no difference. */
  lemma OwnDecides(d: Device, has: Finder, x: Option<nat>, i: nat)
    requires WellFormed(d) && d.own.Some?
    ensures Best(d, has, i) <==> Best(d.(device := x), has, i)
  {
    SameRest(d, d.(device := x), has, i);
  }

  /** Where it has none, the device's property stands in for it. */
  lemma DeviceStandsIn(d: Device, has: Finder, i: nat)
    requires WellFormed(d) && d.own.None?
    ensures Best(d, has, i) <==> Best(d.(own := d.device, device := None), has, i)
  {
    SameRest(d, d.(own := d.device, device := None), has, i);
  }

  /** A property of zero is no preference at all, and not even the device's counts then. */
  lemma ZeroIsNoPreference(d: Device, has: Finder, i: nat)
    requires WellFormed(d) && d.own == Some(0)
    ensures Best(d, has, i) <==> Best(d.(own := None, device := None), has, i)
  {
    SameRest(d, d.(own := None, device := None), has, i);
  }

  /** A preferred number that is there and can be reached is chosen, whatever else would count. */
  lemma OwnNumberIsChosen(d: Device, has: Finder, i: nat)
    requires WellFormed(d) && |d.configs| != 1 && d.own.Some? && d.own.value != 0 && Best(d, has, i)
    ensures (exists j :: FirstWithValue(d.configs, d.own.value, j)) ==> d.configs[i].value.number == d.own.value
  {
    if j :| FirstWithValue(d.configs, d.own.value, j) {
      ValueIsUnique(d, j, i);
    }
  }

  // Two devices that differ in what is preferred by value only.
  lemma SameRest(d: Device, f: Device, has: Finder, i: nat)
    requires WellFormed(d) && f == d.(own := f.own, device := f.device)
    ensures forall e :: ByEntry(d, has, e, i) <==> ByEntry(f, has, e, i)
    ensures ByInterface(d, has, i) <==> ByInterface(f, has, i)
    ensures ByPower(d, has, i) <==> ByPower(f, has, i)
  {
    forall e: nat
      ensures ByEntry(d, has, e, i) <==> ByEntry(f, has, e, i)
    {}
  }

  /** An entry that leaves out the subclass or the protocol asks for any: whoever has what an entry
      asks for has what it asks for without that, when 0xffff stands for any. */
  lemma AbsentIsAny(entry: Entry)
    requires entry.cls.Some?
    ensures RequestOf(entry).cls == entry.cls.value
    ensures RequestOf(entry.(subClass := None)) == RequestOf(entry).(subClass := 0xffff)
    ensures RequestOf(entry.(protocol := None)) == RequestOf(entry).(protocol := 0xffff)
    ensures entry.subClass.Some? ==> RequestOf(entry).subClass == entry.subClass.value
    ensures entry.protocol.Some? ==> RequestOf(entry).protocol == entry.protocol.value
  {}

  /** At super speed (3) a descriptor counts in units four times as large: what can be met there can be
      met at any other speed, and by a bus with a quarter of the supply. */
  lemma SuperSpeedIsDearer(configs: Configs, available: seq<int>, speed: nat, i: nat)
    requires |available| == |configs| && Affordable(configs, available, 3, i)
    ensures Affordable(configs, available, speed, i)
    ensures speed != 3 ==> 4 * configs[i].value.maxPower <= available[i]
  {}

  // ---------- failure ----------

  lemma StuckOnValue(d: Device, has: Finder, u: nat)
    requires WellFormed(d) && |d.configs| != 1
    requires PreferredValue(d.own, d.device) != 0
    requires UnreadableBeforeValue(d.configs, PreferredValue(d.own, d.device), u)
    ensures forall i: nat :: !Best(d, has, i)
  {
    assert d.configs[u].None?;
    forall i: nat
      ensures !ByValue(d, i)
    {
      if i < |d.configs| && d.configs[i].Some? {
        assert d.configs[i].value.number == PreferredValue(d.own, d.device) ==> u < i;
      }
    }
  }

  lemma StuckOnEntry(d: Device, has: Finder, e: nat, u: nat)
    requires WellFormed(d) && |d.configs| != 1 && NotByValue(d)
    requires Usable(d.entries, e) && AllSoonerFail(d.configs, d.entries, has, e)
    requires UnreadableBeforeInterface(d.configs, has, RequestAt(d.entries, e), u)
    ensures forall i: nat :: !Best(d, has, i)
  {
    assert d.configs[u].None?;
    assert !NoneWithInterface(d.configs, has, RequestAt(d.entries, e));
    forall i: nat
      ensures !ByValue(d, i) && !ByInterface(d, has, i)
    {
      NoValueComesLast(d, i);
      forall f: nat
        ensures !ByEntry(d, has, f, i)
      {}
    }
  }

  /** FindPreferredConfiguration: it succeeds exactly when there is a right configuration, and with
      that one. */
  method FindPreferredConfiguration(present: bool, d: Device, has: Finder) returns (status: int, index: nat)
    requires WellFormed(d)
    ensures !present ==> status == NO_DEVICE && index == 0
    ensures present && status == 0 ==> Best(d, has, index)
    ensures present && status != 0 ==> forall i: nat :: !Best(d, has, i)
    ensures present && status == NO_POWER ==> NoneAffordable(d.configs, d.available, d.speed)
  {
    index := 0;
    if !present {
      return NO_DEVICE, index;
    }
    if |d.configs| == 1 {
      return 0, 0;
    }
    var found;
    status, index, found := FromPreferredConfiguration(d.configs, d.own, d.device, index);
    if status != 0 {
      ghost var u :| UnreadableBeforeValue(d.configs, PreferredValue(d.own, d.device), u);
      StuckOnValue(d, has, u);
    }
    if !found && status == 0 {
      ghost var e;
      status, index, found, e := FromPreferredInterface(d.configs, d.entries, has, index);
      if found {
        assert ByEntry(d, has, e, index);
      }
      if status != 0 {
        ghost var u :| UnreadableBeforeInterface(d.configs, has, RequestAt(d.entries, e), u);
        StuckOnEntry(d, has, e, u);
      }
      if !found && status == 0 {
        forall i: nat
          ensures !ByInterface(d, has, i)
        {
          PowerComesLast(d, has, i);
        }
        forall i: nat
          ensures !ByValue(d, i)
        {
          NoValueComesLast(d, i);
        }
        status, index, found := FromPowerRequirements(d.configs, d.available, d.speed, index);
      }
    }
  }
}
