/** The motor toolbar's scan and motor selection. A scan listens for the two scan-result
    events, invokes the scan, then merges the ids it heard into one list sorted by id (private
    results win over MIT results for the same id), registers every entry and auto-selects the
    smallest. The motor registry calls (`setDiscoveredMotors`, `addMotor`, `setActiveMotor`) and
    the backend calls are recorded in order; what the registry does with them is not part of
    this model. */
module MotorToolbar {
  import opened Wrappers
  import opened TextFormat
  import MotorStore

  datatype Protocol = Private | Mit

  datatype DiscoveredMotor = DiscoveredMotor(id: int, protocol: Protocol)

  const SCAN_EVENT: string := "motor-scan-result"
  const MIT_SCAN_EVENT: string := "motor-mit-scan-result"
  const NO_MOTORS: string := "Scan complete: no motors found (0~127). Check CAN baud rate and wiring."

  /** The calls the toolbar makes, in order. */
  datatype ToolbarCall =
    | Listen(event: string)
    | Unlisten(event: string)
    | ScanMotors
    | SetDiscoveredMotors(motors: seq<DiscoveredMotor>)
    | AddMotor(id: int, protocol: Protocol)
    | SetActiveMotor(id: int)
    | UpdateMotorIds(motorId: int, masterId: int)

  predicate Distinct(xs: seq<int>) {
    forall i, j :: 0 <= i < j < |xs| ==> xs[i] != xs[j]
  }

  /** A JS `Set` filled by `add` in arrival order, as its iteration order: each value once, at
      its first arrival. */
  function InsertionOrderSet(xs: seq<int>): (r: seq<int>)
    ensures forall x :: x in r <==> x in xs
    ensures Distinct(r)
  {
    if xs == [] then []
    else
      var d := InsertionOrderSet(xs[..|xs| - 1]);
      var x := xs[|xs| - 1];
      assert forall y :: y in xs <==> y in xs[..|xs| - 1] || y == x by {
        assert xs == xs[..|xs| - 1] + [x];
      }
      if x in d then d else d + [x]
  }

  /** The private results, each tagged "private", in set order. */
  function PrivateEntries(ids: seq<int>): (r: seq<DiscoveredMotor>)
    ensures |r| == |ids|
    ensures forall i :: 0 <= i < |ids| ==> r[i] == DiscoveredMotor(ids[i], Private)
  {
    if ids == [] then [] else PrivateEntries(ids[..|ids| - 1]) + [DiscoveredMotor(ids[|ids| - 1], Private)]
  }

  /** The MIT results whose id is not among the private ones, each tagged "mit", in set order. */
  function MitEntries(ids: seq<int>, priv: seq<int>): (r: seq<DiscoveredMotor>)
    ensures forall m :: m in r <==> m.protocol == Mit && m.id in ids && m.id !in priv
    ensures Distinct(ids) ==> DistinctIds(r)
  {
    if ids == [] then []
    else
      var rest := MitEntries(ids[..|ids| - 1], priv);
      var x := ids[|ids| - 1];
      assert forall y :: y in ids <==> y in ids[..|ids| - 1] || y == x by {
        assert ids == ids[..|ids| - 1] + [x];
      }
      if x in priv then rest else rest + [DiscoveredMotor(x, Mit)]
  }

  /** The list before sorting: the private entries, then the MIT-only ones. */
  function Collected(priv: seq<int>, mit: seq<int>): seq<DiscoveredMotor> {
    PrivateEntries(priv) + MitEntries(mit, priv)
  }

  predicate DistinctIds(s: seq<DiscoveredMotor>) {
    forall i, j :: 0 <= i < j < |s| ==> s[i].id != s[j].id
  }

  predicate SortedById(s: seq<DiscoveredMotor>) {
    forall i, j :: 0 <= i < j < |s| ==> s[i].id <= s[j].id
  }

  /** Inserting into a sorted list keeps it sorted and adds exactly that element. */
  function InsertById(x: DiscoveredMotor, s: seq<DiscoveredMotor>): (r: seq<DiscoveredMotor>)
    requires SortedById(s)
    ensures SortedById(r)
    ensures multiset(r) == multiset(s) + multiset{x}
  {
    if s == [] || x.id <= s[0].id then [x] + s
    else
      SortedTail(s);
      var rest := InsertById(x, s[1..]);
      InsertBehindHead(x, s, rest);
      [s[0]] + rest
  }

  lemma SortedTail(s: seq<DiscoveredMotor>)
    requires SortedById(s) && s != []
    ensures SortedById(s[1..])
    ensures forall k :: 0 <= k < |s[1..]| ==> s[0].id <= s[1..][k].id
  {
  }

  /** Inserting behind a head that is smaller than the new entry keeps the list sorted. */
  lemma InsertBehindHead(x: DiscoveredMotor, s: seq<DiscoveredMotor>, rest: seq<DiscoveredMotor>)
    requires SortedById(s) && s != [] && s[0].id < x.id
    requires SortedById(rest) && multiset(rest) == multiset(s[1..]) + multiset{x}
    ensures SortedById([s[0]] + rest)
    ensures multiset([s[0]] + rest) == multiset(s) + multiset{x}
  {
    SortedTail(s);
    BoundByMultiset(rest, s[1..], x, s[0].id);
    assert s == [s[0]] + s[1..];
  }

  /** A lower bound of `x` and of every element of `pool` bounds every element of a list
      holding exactly those. */
  lemma BoundByMultiset(rest: seq<DiscoveredMotor>, pool: seq<DiscoveredMotor>, x: DiscoveredMotor, b: int)
    requires multiset(rest) == multiset(pool) + multiset{x}
    requires b <= x.id && forall k :: 0 <= k < |pool| ==> b <= pool[k].id
    ensures forall k :: 0 <= k < |rest| ==> b <= rest[k].id
  {
    forall k | 0 <= k < |rest|
      ensures b <= rest[k].id
    {
      assert rest[k] in multiset(rest);
      if rest[k] != x {
        assert rest[k] in multiset(pool);
      }
    }
  }

  /** `discovered.sort((a, b) => a.id - b.id)`: sorted by id, the same entries. */
  function SortById(s: seq<DiscoveredMotor>): (r: seq<DiscoveredMotor>)
    ensures SortedById(r)
    ensures multiset(r) == multiset(s)
  {
    if s == [] then []
    else
      assert s == [s[0]] + s[1..];
      InsertById(s[0], SortById(s[1..]))
  }

  /** The scan's merged list: the sorted union of the private and MIT results. */
  function Discovered(privEvents: seq<int>, mitEvents: seq<int>): seq<DiscoveredMotor> {
    var priv := InsertionOrderSet(privEvents);
    SortById(Collected(priv, InsertionOrderSet(mitEvents)))
  }

  lemma ConsDistinct(x: DiscoveredMotor, s: seq<DiscoveredMotor>)
    requires DistinctIds(s)
    requires forall m :: m in s ==> m.id != x.id
    ensures DistinctIds([x] + s)
  {
    var r := [x] + s;
    forall i, j | 0 <= i < j < |r|
      ensures r[i].id != r[j].id
    {
      assert r[j] == s[j - 1];
      if i == 0 {
        assert s[j - 1] in s;
      } else {
        assert r[i] == s[i - 1];
      }
    }
  }

  lemma TailIdsDiffer(s: seq<DiscoveredMotor>)
    requires s != [] && DistinctIds(s)
    ensures forall m :: m in s[1..] ==> m.id != s[0].id
  {
    forall m | m in s[1..]
      ensures m.id != s[0].id
    {
      var k :| 0 <= k < |s[1..]| && s[1..][k] == m;
      assert s[k + 1] == m;
    }
  }

  /** The entries of an insertion are the inserted one and the old ones. */
  lemma InsertMembers(x: DiscoveredMotor, s: seq<DiscoveredMotor>)
    requires SortedById(s)
    ensures forall m :: m in InsertById(x, s) <==> m == x || m in s
  {
    var r := InsertById(x, s);
    forall m
      ensures m in r <==> m == x || m in s
    {
      assert m in r <==> m in multiset(r);
      assert m in s <==> m in multiset(s);
    }
  }

  /** The entries of a sorted list are the entries of the list. */
  lemma SortMembers(s: seq<DiscoveredMotor>)
    ensures forall m :: m in SortById(s) <==> m in s
  {
    var r := SortById(s);
    forall m
      ensures m in r <==> m in s
    {
      assert m in r <==> m in multiset(r);
      assert m in s <==> m in multiset(s);
    }
  }

  lemma {:induction false} InsertDistinct(x: DiscoveredMotor, s: seq<DiscoveredMotor>)
    requires SortedById(s) && DistinctIds(s)
    requires forall m :: m in s ==> m.id != x.id
    ensures DistinctIds(InsertById(x, s))
    decreases |s|
  {
    if s == [] || x.id <= s[0].id {
      ConsDistinct(x, s);
    } else {
      var rest := InsertById(x, s[1..]);
      assert forall m :: m in s[1..] ==> m in s;
      InsertDistinct(x, s[1..]);
      InsertMembers(x, s[1..]);
      TailIdsDiffer(s);
      ConsDistinct(s[0], rest);
    }
  }

  lemma {:induction false} SortDistinct(s: seq<DiscoveredMotor>)
    requires DistinctIds(s)
    ensures DistinctIds(SortById(s))
    decreases |s|
  {
    if s != [] {
      var tail := SortById(s[1..]);
      SortDistinct(s[1..]);
      SortMembers(s[1..]);
      TailIdsDiffer(s);
      InsertDistinct(s[0], tail);
    }
  }

  /** Before sorting, no id appears twice: the private ids are a set, the MIT-only ids are a
      set, and no MIT-only id is a private one. */
  lemma CollectedDistinct(priv: seq<int>, mit: seq<int>)
    requires Distinct(priv) && Distinct(mit)
    ensures DistinctIds(Collected(priv, mit))
  {
    var p := PrivateEntries(priv);
    var q := MitEntries(mit, priv);
    var c := p + q;
    forall i, j | 0 <= i < j < |c|
      ensures c[i].id != c[j].id
    {
      if j >= |p| && i < |p| {
        assert c[j] == q[j - |p|] && c[j] in q;
        assert c[i].id == priv[i];
      } else if i >= |p| {
        assert c[i] == q[i - |p|] && c[j] == q[j - |p|];
      }
    }
  }

  /** The entries before sorting: the private ids tagged "private", and the MIT ids that are
      not private ones tagged "mit". */
  lemma CollectedMembers(priv: seq<int>, mit: seq<int>)
    ensures forall id :: DiscoveredMotor(id, Private) in Collected(priv, mit) <==> id in priv
    ensures forall id :: DiscoveredMotor(id, Mit) in Collected(priv, mit) <==> id in mit && id !in priv
  {
    var p := PrivateEntries(priv);
    var q := MitEntries(mit, priv);
    assert forall m :: m in p + q <==> m in p || m in q;
    forall id
      ensures DiscoveredMotor(id, Private) in p <==> id in priv
    {
      if id in priv {
        var k :| 0 <= k < |priv| && priv[k] == id;
        assert p[k] == DiscoveredMotor(id, Private);
      }
    }
    assert forall id :: DiscoveredMotor(id, Mit) !in p;
  }

  /** Sorted with unique ids means strictly increasing. */
  lemma SortedUniqueIncreasing(d: seq<DiscoveredMotor>)
    requires SortedById(d) && DistinctIds(d)
    ensures forall i, j :: 0 <= i < j < |d| ==> d[i].id < d[j].id
  {
  }

  /** The ids of a scan's list are strictly increasing, so no id appears twice. */
  lemma DiscoveredIncreasing(privEvents: seq<int>, mitEvents: seq<int>)
    ensures var d := Discovered(privEvents, mitEvents);
      forall i, j :: 0 <= i < j < |d| ==> d[i].id < d[j].id
  {
    var priv := InsertionOrderSet(privEvents);
    var c := Collected(priv, InsertionOrderSet(mitEvents));
    CollectedDistinct(priv, InsertionOrderSet(mitEvents));
    SortDistinct(c);
    SortedUniqueIncreasing(SortById(c));
  }

  /** Every id heard by the private scan is in the list tagged "private"; an MIT id is in it
      tagged "mit" exactly when the private scan did not hear it. */
  lemma DiscoveredMembers(privEvents: seq<int>, mitEvents: seq<int>)
    ensures forall id :: DiscoveredMotor(id, Private) in Discovered(privEvents, mitEvents) <==> id in privEvents
    ensures forall id ::
      DiscoveredMotor(id, Mit) in Discovered(privEvents, mitEvents) <==> id in mitEvents && id !in privEvents
  {
    var priv := InsertionOrderSet(privEvents);
    var c := Collected(priv, InsertionOrderSet(mitEvents));
    SortMembers(c);
    CollectedMembers(priv, InsertionOrderSet(mitEvents));
  }

  /** The list is empty only when no id was heard, and otherwise starts with the smallest id
      heard. */
  lemma DiscoveredFirst(privEvents: seq<int>, mitEvents: seq<int>)
    ensures var d := Discovered(privEvents, mitEvents);
      && (d == [] <==> privEvents == [] && mitEvents == [])
      && (d != [] ==> forall id :: id in privEvents || id in mitEvents ==> d[0].id <= id)
  {
    var d := Discovered(privEvents, mitEvents);
    DiscoveredMembers(privEvents, mitEvents);
    if d != [] {
      SortedFirstSmallest(d);
      forall id | id in privEvents || id in mitEvents
        ensures d[0].id <= id
      {
        if id !in privEvents {
          assert DiscoveredMotor(id, Mit) in d;
        } else {
          assert DiscoveredMotor(id, Private) in d;
        }
      }
    }
    if privEvents != [] {
      assert DiscoveredMotor(privEvents[0], Private) in d;
    } else if mitEvents != [] {
      assert DiscoveredMotor(mitEvents[0], Mit) in d;
    }
  }

  /** The first entry of a list sorted by id has the smallest id. */
  lemma SortedFirstSmallest(d: seq<DiscoveredMotor>)
    requires SortedById(d) && d != []
    ensures forall m :: m in d ==> d[0].id <= m.id
  {
    forall m | m in d
      ensures d[0].id <= m.id
    {
      var k :| 0 <= k < |d| && d[k] == m;
    }
  }

  /** The listener of one scan event: each payload added to a JS `Set`. */
  method CollectIds(events: seq<int>) returns (found: seq<int>)
    ensures found == InsertionOrderSet(events)
  {
    found := [];
    var i := 0;
    while i < |events|
      invariant 0 <= i <= |events|
      invariant found == InsertionOrderSet(events[..i])
    {
      assert events[..i + 1][..i] == events[..i];
      if events[i] !in found {
        found := found + [events[i]];
      }
      i := i + 1;
    }
    assert events[..i] == events;
  }

  lemma PrivateEntriesSnoc(ids: seq<int>, i: nat)
    requires i < |ids|
    ensures PrivateEntries(ids[..i + 1]) == PrivateEntries(ids[..i]) + [DiscoveredMotor(ids[i], Private)]
  {
    assert ids[..i + 1][..i] == ids[..i];
  }

  lemma MitEntriesSnoc(ids: seq<int>, priv: seq<int>, j: nat)
    requires j < |ids|
    ensures MitEntries(ids[..j + 1], priv)
      == MitEntries(ids[..j], priv) + (if ids[j] in priv then [] else [DiscoveredMotor(ids[j], Mit)])
  {
    assert ids[..j + 1][..j] == ids[..j];
  }

  /** The two push loops of `handleScan`: the private ids, then the MIT ids not found
      privately. */
  method BuildDiscovered(foundPrivate: seq<int>, foundMit: seq<int>) returns (discovered: seq<DiscoveredMotor>)
    ensures discovered == Collected(foundPrivate, foundMit)
  {
    discovered := PushPrivate(foundPrivate);
    discovered := PushMit(discovered, foundMit, foundPrivate);
  }

  /** The first push loop: every private id, tagged "private". */
  method PushPrivate(foundPrivate: seq<int>) returns (discovered: seq<DiscoveredMotor>)
    ensures discovered == PrivateEntries(foundPrivate)
  {
    discovered := [];
    var i := 0;
    while i < |foundPrivate|
      invariant 0 <= i <= |foundPrivate|
      invariant discovered == PrivateEntries(foundPrivate[..i])
    {
      PrivateEntriesSnoc(foundPrivate, i);
      discovered := discovered + [DiscoveredMotor(foundPrivate[i], Private)];
      i := i + 1;
    }
    assert foundPrivate[..i] == foundPrivate;
  }

  /** The second push loop: every MIT id not found privately, tagged "mit", after what is
      already in the list. */
  method PushMit(start: seq<DiscoveredMotor>, foundMit: seq<int>, foundPrivate: seq<int>) returns (discovered: seq<DiscoveredMotor>)
    ensures discovered == start + MitEntries(foundMit, foundPrivate)
  {
    discovered := start;
    var j := 0;
    while j < |foundMit|
      invariant 0 <= j <= |foundMit|
      invariant discovered == start + MitEntries(foundMit[..j], foundPrivate)
    {
      MitEntriesSnoc(foundMit, foundPrivate, j);
      if foundMit[j] !in foundPrivate {
        discovered := discovered + [DiscoveredMotor(foundMit[j], Mit)];
      }
      j := j + 1;
    }
    assert foundMit[..j] == foundMit;
  }

  /** The per-entry label of the result line. */
  function Label(m: DiscoveredMotor): string {
    "ID=" + IntString(m.id) + (if m.protocol == Mit then " (MIT)" else "")
  }

  function Labels(d: seq<DiscoveredMotor>): (r: seq<string>)
    ensures |r| == |d|
    ensures forall i :: 0 <= i < |d| ==> r[i] == Label(d[i])
  {
    if d == [] then [] else Labels(d[..|d| - 1]) + [Label(d[|d| - 1])]
  }

  /** The result line of a scan that found motors. */
  function FoundMessage(d: seq<DiscoveredMotor>): string {
    "Found " + Decimal(|d|) + " motor(s): " + JoinWith(Labels(d), ", ")
  }

  /** `addMotor` once per entry, in list order. */
  function AddCalls(d: seq<DiscoveredMotor>): (cs: seq<ToolbarCall>)
    ensures |cs| == |d|
    ensures forall i :: 0 <= i < |d| ==> cs[i] == AddMotor(d[i].id, d[i].protocol)
  {
    if d == [] then [] else AddCalls(d[..|d| - 1]) + [AddMotor(d[|d| - 1].id, d[|d| - 1].protocol)]
  }

  /** The calls that publish a scan's list: the list stored, every entry registered, and for a
      non-empty list the first entry selected and the backend's motor id moved to it. */
  function RegisterCalls(d: seq<DiscoveredMotor>, masterId: int): seq<ToolbarCall> {
    [SetDiscoveredMotors(d)] + AddCalls(d)
      + (if d == [] then [] else [SetActiveMotor(d[0].id), UpdateMotorIds(d[0].id, masterId)])
  }

  /** Appending a block of calls piece by piece gives the same log as appending it whole. */
  lemma CallsRegroup(prefix: seq<ToolbarCall>, head: seq<ToolbarCall>, adds: seq<ToolbarCall>, tail: seq<ToolbarCall>)
    ensures prefix + head + adds + tail == prefix + (head + adds + tail)
  {
    assert prefix + head + adds + tail == prefix + (head + adds + tail);
  }

  /** `MotorToolbar`'s state. */
  class Toolbar {
    /** `localConfig`, the settings form's copy of the config. */
    var localConfig: MotorStore.UdpConfig
    var error: string
    var diagResult: string
    var scanning: bool
    /** The registry and backend calls made so far, in order. */
    var calls: seq<ToolbarCall>

    constructor (config: MotorStore.UdpConfig)
      ensures localConfig == config && error == "" && diagResult == "" && !scanning && calls == []
    {
      localConfig, error, diagResult, scanning, calls := config, "", "", false, [];
    }

    /** `handleScan`. The ids heard on the two events while the scan ran are `privEvents` and
        `mitEvents`, in arrival order; `scanError` is the scan call's failure. The listeners are
        removed and scanning ends whether or not the scan failed. */
    method HandleScan(privEvents: seq<int>, mitEvents: seq<int>, scanError: Option<string>)
      modifies this
      ensures var d := Discovered(privEvents, mitEvents);
        && calls == old(calls) + [Listen(SCAN_EVENT), Listen(MIT_SCAN_EVENT), ScanMotors]
          + [Unlisten(SCAN_EVENT), Unlisten(MIT_SCAN_EVENT)] + RegisterCalls(d, old(localConfig).masterId)
        && diagResult == (if d == [] then NO_MOTORS else FoundMessage(d))
        && localConfig == (if d == [] then old(localConfig) else old(localConfig).(motorId := d[0].id))
      ensures error == (if scanError.Some? then scanError.value else "")
      ensures !scanning
    {
      diagResult, error, scanning := "", "", true;
      calls := calls + [Listen(SCAN_EVENT), Listen(MIT_SCAN_EVENT), ScanMotors];
      var foundPrivate := CollectIds(privEvents);
      var foundMit := CollectIds(mitEvents);
      if scanError.Some? {
        error := scanError.value;
      }
      calls := calls + [Unlisten(SCAN_EVENT), Unlisten(MIT_SCAN_EVENT)];
      scanning := false;
      var discovered := BuildDiscovered(foundPrivate, foundMit);
      discovered := SortById(discovered);
      Register(discovered);
    }

    /** The end of `handleScan`'s `finally` block: the list is stored, each entry registered in
        order, and the result line set; a non-empty list also selects its first entry, copies
        its id into the form and moves the backend's motor id to it. */
    method Register(discovered: seq<DiscoveredMotor>)
      modifies this
      ensures calls == old(calls) + RegisterCalls(discovered, old(localConfig).masterId)
      ensures diagResult == (if discovered == [] then NO_MOTORS else FoundMessage(discovered))
      ensures localConfig == (if discovered == [] then old(localConfig) else old(localConfig).(motorId := discovered[0].id))
      ensures error == old(error) && scanning == old(scanning)
    {
      calls := calls + [SetDiscoveredMotors(discovered)];
      ghost var start := calls;
      var k := 0;
      while k < |discovered|
        invariant 0 <= k <= |discovered|
        invariant calls == start + AddCalls(discovered[..k])
        invariant error == old(error) && scanning == old(scanning)
        invariant diagResult == old(diagResult) && localConfig == old(localConfig)
      {
        assert discovered[..k + 1][..k] == discovered[..k];
        calls := calls + [AddMotor(discovered[k].id, discovered[k].protocol)];
        k := k + 1;
      }
      assert discovered[..k] == discovered;
      if |discovered| == 0 {
        diagResult := NO_MOTORS;
        CallsRegroup(old(calls), [SetDiscoveredMotors(discovered)], AddCalls(discovered), []);
      } else {
        diagResult := FoundMessage(discovered);
        calls := calls + [SetActiveMotor(discovered[0].id)];
        var masterId := localConfig.masterId;
        localConfig := localConfig.(motorId := discovered[0].id);
        calls := calls + [UpdateMotorIds(discovered[0].id, masterId)];
        CallsRegroup(old(calls), [SetDiscoveredMotors(discovered)], AddCalls(discovered),
          [SetActiveMotor(discovered[0].id), UpdateMotorIds(discovered[0].id, masterId)]);
      }
    }

    /** `handleSelectMotor`: the chosen id becomes active, goes into the form's motor id, and the
        backend's motor id follows it. */
    method HandleSelectMotor(id: int)
      modifies this
      ensures calls == old(calls) + [SetActiveMotor(id), UpdateMotorIds(id, old(localConfig).masterId)]
      ensures localConfig == old(localConfig).(motorId := id)
      ensures error == old(error) && diagResult == old(diagResult) && scanning == old(scanning)
    {
      calls := calls + [SetActiveMotor(id)];
      var masterId := localConfig.masterId;
      localConfig := localConfig.(motorId := id);
      calls := calls + [UpdateMotorIds(id, masterId)];
    }
  }
}
