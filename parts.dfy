// Instantiating a part (Part.__init__ with _generate_pin_instances and
// _generate_port_instances, pcbdl/base.py:521-567): the layers' PINS lists
// are normalised in place, their fragments gathered and resolved into class
// pins, one instance pin is made per class pin with its numbers and its
// well, and the part's interfaces derive its ports from those pins.
module Parts {
  import opened Core
  import opened OrderedMaps
  import opened Fragments
  import opened Resolution
  import opened Interfaces
  import opened Schematic

  /** The names a pin answers to in the pin list's alias look-up. */
  function PinNames(p: Pin): seq<string> {
    p.names
  }

  /** A pin the well check accepts: a POWER_INPUT or POWER_OUTPUT pin. */
  predicate PowerPin(p: Pin) {
    p.pinType == TypeArg(PowerInput) || p.pinType == TypeArg(PowerOutput)
  }

  // ---------------------------------------------------------------------
  // Pin numbers (pcbdl/base.py:359-361, 553-554)
  // ---------------------------------------------------------------------

  /** The numbers of instance pin `i`: the declared ones, or `str(i + 1)` when none were declared. */
  function InstanceNumbers(cp: ClassPin, i: nat): seq<string> {
    if cp.numbers == [] then [NatToString(i + 1)] else cp.numbers
  }

  /**
   * A pin with declared numbers keeps them; a pin without gets exactly one
   * number, which reads back as its 1-based position. So every instance
   * pin has a number.
   */
  lemma InstanceNumbersSpec(cp: ClassPin, i: nat)
    ensures InstanceNumbers(cp, i) != []
    ensures cp.numbers != [] ==> InstanceNumbers(cp, i) == cp.numbers
    ensures cp.numbers == [] ==> |InstanceNumbers(cp, i)| == 1 && ParseDecimal(InstanceNumbers(cp, i)[0]) == i + 1
  {
    DecimalRoundTrip(i + 1);
  }

  /** Two pins at different positions, neither with declared numbers, never get the same number. */
  lemma InjectedNumbersDistinct(a: ClassPin, i: nat, b: ClassPin, j: nat)
    requires a.numbers == [] && b.numbers == [] && i != j
    ensures InstanceNumbers(a, i) != InstanceNumbers(b, j)
  {
    if InstanceNumbers(a, i) == InstanceNumbers(b, j) {
      assert InstanceNumbers(a, i)[0] == InstanceNumbers(b, j)[0];
      NatToStringInjective(i + 1, j + 1);
    }
  }

  // ---------------------------------------------------------------------
  // Well pins (pcbdl/base.py:363-370)
  // ---------------------------------------------------------------------

  /**
   * The well of a pin declaring `well`, looked up with `part.pins[well]`
   * among the pins made before it: none for no well name, else the pin the
   * look-up finds, which must be a power pin. A failed look-up raises
   * KeyError, a pin of another type ValueError; a well that is not a name
   * has no `upper()` and raises AttributeError in the look-up.
   */
  function WellOf(well: Arg, pins: PinList): (r: Result<Pin?>)
    ensures r.Ok? && r.value != null ==> PowerPin(r.value)
    ensures r == Ok(null) <==> well.NoneArg?
    ensures well.TypeArg? ==> r == Err(AttributeError)
  {
    match well
    case NoneArg => Ok(null)
    case TypeArg(_) => Err(AttributeError)
    case NameArg(w) =>
      match Lookup(pins, NameKey(w), PinNames)
      case Err(_) => Err(KeyError)
      case Ok(p) => if PowerPin(p) then Ok(p) else Err(ValueError)
  }

  /** The well name raises KeyError exactly when no pin made so far bears it, in any case. */
  lemma WellMissing(w: string, pins: PinList)
    requires KeyedByOwnName(pins, PinNames)
    ensures WellOf(NameArg(w), pins) == Err(KeyError) <==>
      forall i | 0 <= i < |pins.keys| :: Upper(w) !in Values(pins)[i].names
  {
    var u := Upper(w);
    var vs := Values(pins);
    if u in pins.entries {
      var j :| 0 <= j < |pins.keys| && pins.keys[j] == u;
      assert u in vs[j].names;
    } else if forall i | 0 <= i < |pins.keys| :: u !in vs[i].names {
      assert FindByAlias(vs, u, PinNames).Err?;
    } else {
      var i :| 0 <= i < |pins.keys| && u in vs[i].names;
      assert u in PinNames(vs[i]);
    }
  }

  /**
   * Among pins keyed by their own names and sharing no name, the well is
   * the one pin bearing the name, when that is a power pin; otherwise the
   * check raises ValueError.
   */
  lemma WellFound(w: string, pins: PinList, i: nat)
    requires KeyedByOwnName(pins, PinNames) && NamesDisjoint(Values(pins), PinNames)
    requires i < |pins.keys| && Upper(w) in Values(pins)[i].names
    ensures WellOf(NameArg(w), pins) == if PowerPin(Values(pins)[i]) then Ok(Values(pins)[i]) else Err(ValueError)
  {
    LookupByAlias(pins, PinNames, i, w);
  }

  // ---------------------------------------------------------------------
  // The part's pin list (pcbdl/base.py:551-559)
  // ---------------------------------------------------------------------

  /** `self.pins` after `self.pins[pin.name] = pin` for each pin in order. */
  function ListOf(ps: seq<Pin>): PinList
    requires forall j | 0 <= j < |ps| :: ps[j].names != []
    decreases |ps|
  {
    if ps == [] then Empty()
    else
      var last := ps[|ps| - 1];
      Put(ListOf(ps[..|ps| - 1]), last.names[0], last)
  }

  /**
   * Pins sharing no name are stored in order, each under its first name:
   * the list's values are the pins, and every key is a name of its pin.
   */
  lemma ListOfPins(ps: seq<Pin>)
    requires forall j | 0 <= j < |ps| :: ps[j].names != []
    requires NamesDisjoint(ps, PinNames)
    ensures Values(ListOf(ps)) == ps
    ensures KeyedByOwnName(ListOf(ps), PinNames)
    ensures forall j | 0 <= j < |ps| :: ListOf(ps).keys[j] == ps[j].names[0]
  {
    ListOfOrder(ps);
    ListOfKeyed(ps);
  }

  /** Every key of the pin list is a name of the pin stored under it. */
  lemma {:induction false} ListOfKeyed(ps: seq<Pin>)
    requires forall j | 0 <= j < |ps| :: ps[j].names != []
    ensures KeyedByOwnName(ListOf(ps), PinNames)
    decreases |ps|
  {
    if ps != [] {
      var n := |ps| - 1;
      ListOfKeyed(ps[..n]);
      KeyedPut(ListOf(ps[..n]), ps[n].names[0], ps[n]);
    }
  }

  /** Pins sharing no name are stored in order, each under its first name. */
  lemma {:induction false} ListOfOrder(ps: seq<Pin>)
    requires forall j | 0 <= j < |ps| :: ps[j].names != []
    requires NamesDisjoint(ps, PinNames)
    ensures Values(ListOf(ps)) == ps
    ensures forall j | 0 <= j < |ps| :: ListOf(ps).keys[j] == ps[j].names[0]
    decreases |ps|
  {
    if ps != [] {
      var n := |ps| - 1;
      var init, last := ps[..n], ps[n];
      assert ps == init + [last];
      DisjointSplit(init, last);
      ListOfOrder(init);
      ListOfStep(init, last);
    }
  }

  /** One more pin sharing no name with the earlier ones goes to the end, under its first name. */
  lemma ListOfStep(init: seq<Pin>, last: Pin)
    requires forall j | 0 <= j < |init| :: init[j].names != []
    requires last.names != []
    requires forall j | 0 <= j < |init| :: last.names[0] !in PinNames(init[j])
    requires Values(ListOf(init)) == init
    requires forall j | 0 <= j < |init| :: ListOf(init).keys[j] == init[j].names[0]
    ensures Values(ListOf(init + [last])) == init + [last]
    ensures forall j | 0 <= j < |init| + 1 :: ListOf(init + [last]).keys[j] == (init + [last])[j].names[0]
  {
    ListOfSnoc(init, last);
    PutAfter(ListOf(init), init, last);
  }

  /** Storing a pin under a fresh first name extends a list of pins keyed by their first names. */
  lemma PutAfter(m: PinList, init: seq<Pin>, last: Pin)
    requires forall j | 0 <= j < |init| :: init[j].names != []
    requires last.names != []
    requires forall j | 0 <= j < |init| :: last.names[0] !in PinNames(init[j])
    requires m.Valid() && Values(m) == init
    requires forall j | 0 <= j < |init| :: m.keys[j] == init[j].names[0]
    ensures Values(Put(m, last.names[0], last)) == init + [last]
    ensures forall j | 0 <= j < |init| + 1 :: Put(m, last.names[0], last).keys[j] == (init + [last])[j].names[0]
  {
    FreshKey(m, init, last);
    PutNewKey(m, last.names[0], last);
    var ps := init + [last];
    forall j | 0 <= j < |ps|
      ensures Put(m, last.names[0], last).keys[j] == ps[j].names[0]
    {
      if j < |init| {
        assert ps[j] == init[j];
      }
    }
  }

  lemma DisjointSplit(init: seq<Pin>, last: Pin)
    requires last.names != [] && NamesDisjoint(init + [last], PinNames)
    ensures NamesDisjoint(init, PinNames)
    ensures forall j | 0 <= j < |init| :: last.names[0] !in PinNames(init[j])
  {
    var ps := init + [last];
    forall i, j, k | 0 <= i < j < |init| && k in PinNames(init[i])
      ensures k !in PinNames(init[j])
    {
      assert init[i] == ps[i] && init[j] == ps[j];
    }
    forall j | 0 <= j < |init|
      ensures last.names[0] !in PinNames(init[j])
    {
      assert init[j] == ps[j] && last == ps[|init|];
    }
  }

  /** The first name of a pin sharing no name with the pins stored so far is not yet a key. */
  lemma FreshKey(m: PinList, init: seq<Pin>, last: Pin)
    requires |m.keys| == |init| && last.names != []
    requires forall j | 0 <= j < |init| :: init[j].names != [] && m.keys[j] == init[j].names[0]
    requires forall j | 0 <= j < |init| :: last.names[0] !in PinNames(init[j])
    ensures last.names[0] !in m.entries
  {
  }

  /** Storing a value under a new key appends the key and the value. */
  lemma PutNewKey(m: PinList, key: string, v: Pin)
    requires key !in m.entries
    ensures Put(m, key, v).keys == m.keys + [key]
    ensures Values(Put(m, key, v)) == Values(m) + [v]
  {
    var r := Put(m, key, v);
    assert forall i | 0 <= i < |m.keys| :: m.keys[i] != key;
  }

  lemma KeyedPut(m: PinList, key: string, v: Pin)
    requires KeyedByOwnName(m, PinNames) && key in v.names
    ensures KeyedByOwnName(Put(m, key, v), PinNames)
  {
  }

  /** Every alias of an instance pin, in any case, finds that pin in the part's pin list, and so does its position. */
  lemma InstanceLookup(ps: seq<Pin>, i: nat, name: string)
    requires forall j | 0 <= j < |ps| :: ps[j].names != []
    requires NamesDisjoint(ps, PinNames)
    requires i < |ps| && Upper(name) in ps[i].names
    ensures Lookup(ListOf(ps), NameKey(name), PinNames) == Ok(ps[i])
    ensures Lookup(ListOf(ps), IndexKey(i), PinNames) == Ok(ps[i])
  {
    ListOfPins(ps);
    LookupByAlias(ListOf(ps), PinNames, i, name);
  }

  // ---------------------------------------------------------------------
  // Making the instance pins (pcbdl/base.py:349-370, 551-559)
  // ---------------------------------------------------------------------

  /** Pin `i` made from class pin `cp`, with `earlier` the pins before it: `PartInstancePin(part, cp, inject)`. */
  predicate MadeFrom(p: Pin, cp: ClassPin, i: nat, earlier: PinList) {
    p.names == cp.names && p.numbers == InstanceNumbers(cp, i) && p.pinType == cp.pinType &&
    WellOf(cp.well, earlier) == Ok(p.well)
  }

  /** The pins made so far, one per class pin in order, each stored under a first name. */
  predicate MadeInOrder(ps: seq<Pin>, cps: seq<ClassPin>) {
    |ps| <= |cps| &&
    (forall j | 0 <= j < |ps| :: ps[j].names != []) &&
    (forall j | 0 <= j < |ps| :: MadeFrom(ps[j], cps[j], j, ListOf(ps[..j])))
  }

  /** Whether the next pin can be made and stored: its well check, then its first name. */
  function PinVerdict(cp: ClassPin, earlier: PinList): Outcome {
    match WellOf(cp.well, earlier)
    case Err(e) => Fail(e)
    case Ok(_) => if cp.names == [] then Fail(IndexError) else Pass
  }

  /**
   * The loop of `_generate_pin_instances` over the class pins: each pin is
   * made from its class pin and stored under its first name. The first pin
   * whose well check fails, or that has no name, stops the loop with that
   * error; `ps` are the pins stored until then.
   */
  method MakePins(cps: seq<ClassPin>) returns (r: Result<PinList>, ghost ps: seq<Pin>)
    ensures MadeInOrder(ps, cps)
    ensures forall j | 0 <= j < |ps| :: fresh(ps[j]) && ps[j].net == null
    ensures r.Ok? ==> |ps| == |cps| && r.value == ListOf(ps)
    ensures r.Err? ==> |ps| < |cps| && PinVerdict(cps[|ps|], ListOf(ps)) == Fail(r.error)
  {
    var list: PinList := Empty();
    ps := [];
    var i := 0;
    while i < |cps|
      invariant i <= |cps| && |ps| == i
      invariant MadeInOrder(ps, cps) && list == ListOf(ps)
      invariant forall j | 0 <= j < i :: fresh(ps[j]) && ps[j].net == null
    {
      var err, pin;
      err, pin, list := AddPin(cps, i, ps, list);
      if err.Some? {
        return Err(err.value), ps;
      }
      ps := ps + [pin];
      i := i + 1;
    }
    r := Ok(list);
  }

  /** One turn of the loop in `_generate_pin_instances`: make the next pin and store it under its first name. */
  method AddPin(cps: seq<ClassPin>, i: nat, ghost ps: seq<Pin>, list: PinList) returns (err: Option<Error>, pin: Pin?, list': PinList)
    requires i == |ps| < |cps| && MadeInOrder(ps, cps) && list == ListOf(ps)
    ensures err.Some? ==> PinVerdict(cps[|ps|], ListOf(ps)) == Fail(err.value)
    ensures err.None? ==> pin != null && fresh(pin) && pin.net == null
    ensures err.None? ==> MadeInOrder(ps + [pin], cps) && list' == ListOf(ps + [pin])
  {
    var cp := cps[i];
    var well := WellOf(cp.well, list);
    if well.Err? {
      return Some(well.error), null, list;
    }
    pin := new Pin(cp.names, InstanceNumbers(cp, i), cp.pinType, well.value);
    if cp.names == [] {
      return Some(IndexError), null, list;
    }
    MadeInOrderSnoc(ps, cps, pin);
    list' := Put(list, cp.names[0], pin);
    err := None;
  }

  /** Storing one more pin made from the next class pin. */
  lemma MadeInOrderSnoc(ps: seq<Pin>, cps: seq<ClassPin>, pin: Pin)
    requires MadeInOrder(ps, cps) && |ps| < |cps| && pin.names != []
    requires MadeFrom(pin, cps[|ps|], |ps|, ListOf(ps))
    ensures MadeInOrder(ps + [pin], cps)
    ensures ListOf(ps + [pin]) == Put(ListOf(ps), pin.names[0], pin)
  {
    ListOfSnoc(ps, pin);
    var ps' := ps + [pin];
    forall j | 0 <= j < |ps'|
      ensures ps'[j].names != [] && MadeFrom(ps'[j], cps[j], j, ListOf(ps'[..j]))
    {
      if j < |ps| {
        PrefixOfSnoc(ps, pin, j);
      }
    }
  }

  lemma ListOfSnoc(ps: seq<Pin>, pin: Pin)
    requires forall j | 0 <= j < |ps| :: ps[j].names != []
    requires pin.names != []
    ensures (ps + [pin])[..|ps|] == ps
    ensures ListOf(ps + [pin]) == Put(ListOf(ps), pin.names[0], pin)
  {
    assert (ps + [pin])[..|ps|] == ps;
  }

  lemma PrefixOfSnoc(ps: seq<Pin>, pin: Pin, j: nat)
    requires j <= |ps|
    ensures (ps + [pin])[..j] == ps[..j]
  {
  }

  /** Pins made from class pins that share no name share no name either. */
  lemma MadeDisjoint(ps: seq<Pin>, cps: seq<ClassPin>)
    requires MadeInOrder(ps, cps) && PinNamesDisjoint(cps)
    ensures NamesDisjoint(ps, PinNames)
  {
    forall i, j, n | 0 <= i < j < |ps| && n in PinNames(ps[i])
      ensures n !in PinNames(ps[j])
    {
      MadeNames(ps, cps, i);
      MadeNames(ps, cps, j);
    }
  }

  /** A made pin has the names of its class pin. */
  lemma MadeNames(ps: seq<Pin>, cps: seq<ClassPin>, j: nat)
    requires MadeInOrder(ps, cps) && j < |ps|
    ensures ps[j].names == cps[j].names
  {
    assert MadeFrom(ps[j], cps[j], j, ListOf(ps[..j]));
  }

  // ---------------------------------------------------------------------
  // Port instances (pcbdl/base.py:561-566, 751-788)
  // ---------------------------------------------------------------------

  /** The ports one interface line derives, each tagged with that interface. */
  function Tagged(iface: Interface, specs: seq<PortSpec<Pin>>): (r: seq<(Interface, PortSpec<Pin>)>)
    ensures |r| == |specs|
    ensures forall k | 0 <= k < |r| :: r[k].1 == specs[k] && r[k].0.cls == iface.cls && r[k].0.name == iface.name
  {
    seq(|specs|, k requires 0 <= k < |specs| => (iface, specs[k]))
  }

  /**
   * The ports the part's interface lines derive from its pins, in order,
   * each with the interface it complies to; the first line that fails stops.
   */
  function PortSpecs(lines: seq<Interface>, pins: seq<Pin>): (r: Result<seq<(Interface, PortSpec<Pin>)>>)
    ensures r.Ok? ==> forall k | 0 <= k < |r.value| :: r.value[k].1.pins.Valid()
    decreases |lines|
  {
    if lines == [] then Ok([])
    else
      var n := |lines| - 1;
      match PortSpecs(lines[..n], pins)
      case Err(e) => Err(e)
      case Ok(done) =>
        match CreatePorts(lines[n], pins, PinNames, WrittenTest)
        case Err(e) => Err(e)
        case Ok(specs) =>
          CreatePortsValid(lines[n], pins, PinNames, WrittenTest);
          Ok(done + Tagged(lines[n], specs))
  }

  /** A failure at some line is the failure of the whole derivation. */
  lemma {:induction false} PortSpecsErr(lines: seq<Interface>, pins: seq<Pin>, i: nat)
    requires i <= |lines| && PortSpecs(lines[..i], pins).Err?
    ensures PortSpecs(lines, pins) == PortSpecs(lines[..i], pins)
    decreases |lines|
  {
    if i < |lines| {
      var n := |lines| - 1;
      assert lines[..n][..i] == lines[..i];
      PortSpecsErr(lines[..n], pins, i);
      PortSpecsErrLast(lines, pins);
    } else {
      assert lines[..i] == lines;
    }
  }

  lemma PortSpecsErrLast(lines: seq<Interface>, pins: seq<Pin>)
    requires lines != [] && PortSpecs(lines[..|lines| - 1], pins).Err?
    ensures PortSpecs(lines, pins) == PortSpecs(lines[..|lines| - 1], pins)
  {
  }

  /** `m` after `m[port.name] = port` for each port in order. */
  function StorePorts(m: PortList, ps: seq<Port>): PortList
    decreases |ps|
  {
    if ps == [] then m
    else
      var last := ps[|ps| - 1];
      Put(StorePorts(m, ps[..|ps| - 1]), last.name, last)
  }

  lemma StoreSnoc(m: PortList, ps: seq<Port>, p: Port)
    ensures StorePorts(m, ps + [p]) == Put(StorePorts(m, ps), p.name, p)
  {
    assert (ps + [p])[..|ps|] == ps;
  }

  /** Storing two runs of ports one after the other is storing them all. */
  lemma {:induction false} StoreAppend(m: PortList, a: seq<Port>, b: seq<Port>)
    ensures StorePorts(m, a + b) == StorePorts(StorePorts(m, a), b)
    decreases |b|
  {
    if b == [] {
      assert a + b == a;
    } else {
      var n := |b| - 1;
      StoreAppend(m, a, b[..n]);
      SnocSplit(a, b);
      StoreSnoc(m, a + b[..n], b[n]);
      StoreSnoc(StorePorts(m, a), b[..n], b[n]);
    }
  }

  /**
   * The port stored under a name is the last port made with that name, and
   * only names of made ports are keys.
   */
  lemma {:induction false} StoreLastWins(ps: seq<Port>, j: nat)
    requires j < |ps| && forall k | j < k < |ps| :: ps[k].name != ps[j].name
    ensures ps[j].name in StorePorts(Empty(), ps).entries
    ensures StorePorts(Empty(), ps).entries[ps[j].name] == ps[j]
    decreases |ps|
  {
    var n := |ps| - 1;
    var init := ps[..n];
    var before := StorePorts(Empty(), init).entries;
    assert StorePorts(Empty(), ps).entries == before[ps[n].name := ps[n]];
    if j < n {
      assert init[j] == ps[j];
      assert forall k | j < k < |init| :: init[k] == ps[k];
      StoreLastWins(init, j);
      OtherKeyKept(before, ps[n].name, ps[n], ps[j].name);
    }
  }

  lemma OtherKeyKept<K, V>(m: map<K, V>, k: K, v: V, other: K)
    requires other in m && other != k
    ensures other in m[k := v] && m[k := v][other] == m[other]
  {
  }

  lemma {:induction false} StoreKeys(ps: seq<Port>, name: string) returns (j: nat)
    requires name in StorePorts(Empty(), ps).entries
    ensures j < |ps| && ps[j].name == name
    decreases |ps|
  {
    var n := |ps| - 1;
    if ps[n].name == name {
      j := n;
    } else {
      j := StoreKeys(ps[..n], name);
    }
  }

  lemma SnocSplit<T>(a: seq<T>, b: seq<T>)
    requires b != []
    ensures a + b == (a + b[..|b| - 1]) + [b[|b| - 1]] && b == b[..|b| - 1] + [b[|b| - 1]]
  {
  }

  /**
   * Each port was made from the derived port at its position, with that
   * port's interface, and is not yet in any bundle.
   */
  predicate Built(made: seq<Port>, specs: seq<(Interface, PortSpec<Pin>)>)
    reads made
  {
    |made| == |specs| &&
    (forall k | 0 <= k < |made| :: MadeAs(made[k], specs[k].0, specs[k].1)) &&
    forall k | 0 <= k < |made| :: made[k].netBundle == null
  }

  /** A port made by `PartInstancePort(name, pins, interface)` from a derived port. */
  predicate MadeAs(port: Port, iface: Interface, spec: PortSpec<Pin>) {
    port.name == spec.name && port.pins == spec.pins &&
    port.iface.cls == iface.cls && port.iface.name == iface.name
  }

  /**
   * `_generate_port_instances`: for each interface line of `PORTS` (a part
   * class without one raises AttributeError), the ports it derives from the
   * pins are made and stored under their names, a later port replacing an
   * earlier one of the same name. A failing line stops with its error.
   */
  method MakePorts(lines: Option<seq<Interface>>, pins: seq<Pin>) returns (r: Result<PortList>, ghost made: seq<Port>)
    ensures lines.None? ==> r == Err(AttributeError)
    ensures lines.Some? ==> (r.Ok? <==> PortSpecs(lines.value, pins).Ok?)
    ensures lines.Some? && r.Err? ==> r.error == PortSpecs(lines.value, pins).error
    ensures r.Ok? ==> Built(made, PortSpecs(lines.value, pins).value) && r.value == StorePorts(Empty(), made)
    ensures forall k | 0 <= k < |made| :: fresh(made[k])
  {
    made := [];
    if lines.None? {
      return Err(AttributeError), made;
    }
    var ls := lines.value;
    var ports: PortList := Empty();
    var i := 0;
    while i < |ls|
      invariant i <= |ls|
      invariant PortSpecs(ls[..i], pins).Ok? && Built(made, PortSpecs(ls[..i], pins).value)
      invariant ports == StorePorts(Empty(), made)
      invariant forall k | 0 <= k < |made| :: fresh(made[k])
    {
      var err;
      err, ports, made := AddLine(ls, pins, i, ports, made);
      if err.Some? {
        return Err(err.value), made;
      }
      i := i + 1;
    }
    assert ls[..i] == ls;
    r := Ok(ports);
  }

  /** One turn of the loop over the interface lines: derive the line's ports, make them and store them. */
  method AddLine(ls: seq<Interface>, pins: seq<Pin>, i: nat, ports: PortList, ghost made: seq<Port>)
    returns (err: Option<Error>, ports': PortList, ghost made': seq<Port>)
    requires i < |ls| && PortSpecs(ls[..i], pins).Ok? && Built(made, PortSpecs(ls[..i], pins).value)
    requires ports == StorePorts(Empty(), made)
    ensures err.Some? ==> PortSpecs(ls, pins) == Err(err.value) && made' == made
    ensures err.None? ==> (PortSpecs(ls[..i + 1], pins).Ok? && Built(made', PortSpecs(ls[..i + 1], pins).value) &&
      ports' == StorePorts(Empty(), made'))
    ensures |made| <= |made'| && forall k | 0 <= k < |made| :: made'[k] == made[k]
    ensures forall k | |made| <= k < |made'| :: fresh(made'[k])
  {
    var specs := DerivePorts(ls[i], pins);
    if specs.Err? {
      PortSpecsAt(ls, pins, i);
      PortSpecsErr(ls, pins, i + 1);
      return Some(specs.error), ports, made;
    }
    CreatePortsValid(ls[i], pins, PinNames, WrittenTest);
    ghost var added;
    ports', added := AddPorts(ports, ls[i], specs.value);
    StoreAppend(Empty(), made, added);
    BuiltStep(made, added, ls, pins, i);
    made' := made + added;
    err := None;
  }

  /** `_create_ports` for one interface line: bucket the pins by the regex, then derive a port per bucket. */
  method DerivePorts(iface: Interface, pins: seq<Pin>) returns (r: Result<seq<PortSpec<Pin>>>)
    ensures r == CreatePorts(iface, pins, PinNames, WrittenTest)
  {
    var b := CollectMatches(pins, PinNames, iface.regex);
    if b.Err? {
      return Err(b.error);
    }
    r := PortsOf(iface, b.value, b.value.keys, WrittenTest);
  }

  /** The inner loop: make each derived port of one line and store it under its name. */
  method AddPorts(ports: PortList, iface: Interface, specs: seq<PortSpec<Pin>>) returns (ports': PortList, ghost added: seq<Port>)
    requires forall k | 0 <= k < |specs| :: specs[k].pins.Valid()
    ensures |added| == |specs| && forall k | 0 <= k < |specs| :: MadeAs(added[k], iface, specs[k])
    ensures forall k | 0 <= k < |added| :: fresh(added[k]) && added[k].netBundle == null
    ensures ports' == StorePorts(ports, added)
  {
    ports' := ports;
    added := [];
    var j := 0;
    while j < |specs|
      invariant j <= |specs| && |added| == j
      invariant forall k | 0 <= k < j :: MadeAs(added[k], iface, specs[k])
      invariant forall k | 0 <= k < j :: fresh(added[k]) && added[k].netBundle == null
      invariant ports' == StorePorts(ports, added)
    {
      var port := new Port(specs[j].name, specs[j].pins, iface);
      StoreSnoc(ports, added, port);
      MadeSnoc(added, port, iface, specs);
      ports' := Put(ports', port.name, port);
      added := added + [port];
      j := j + 1;
    }
  }

  /** One more port made from the next derived port keeps the made ports in step with the derived ones. */
  lemma MadeSnoc(added: seq<Port>, port: Port, iface: Interface, specs: seq<PortSpec<Pin>>)
    requires |added| < |specs| && forall k | 0 <= k < |added| :: MadeAs(added[k], iface, specs[k])
    requires MadeAs(port, iface, specs[|added|])
    ensures forall k | 0 <= k < |added| + 1 :: MadeAs((added + [port])[k], iface, specs[k])
  {
  }

  /** The derivation up to line `i`, then line `i`. */
  lemma PortSpecsAt(ls: seq<Interface>, pins: seq<Pin>, i: nat)
    requires i < |ls| && PortSpecs(ls[..i], pins).Ok?
    ensures CreatePorts(ls[i], pins, PinNames, WrittenTest).Err? ==> PortSpecs(ls[..i + 1], pins) == Err(CreatePorts(ls[i], pins, PinNames, WrittenTest).error)
    ensures CreatePorts(ls[i], pins, PinNames, WrittenTest).Ok? ==> PortSpecs(ls[..i + 1], pins).Ok?
  {
    var pre := ls[..i + 1];
    assert pre[..|pre| - 1] == ls[..i] && pre[|pre| - 1] == ls[i];
  }

  /** The ports of line `i`, made and appended, extend what was built for the lines before. */
  lemma BuiltStep(made: seq<Port>, added: seq<Port>, ls: seq<Interface>, pins: seq<Pin>, i: nat)
    requires i < |ls| && PortSpecs(ls[..i], pins).Ok? && Built(made, PortSpecs(ls[..i], pins).value)
    requires CreatePorts(ls[i], pins, PinNames, WrittenTest).Ok?
    requires |added| == |CreatePorts(ls[i], pins, PinNames, WrittenTest).value|
    requires forall k | 0 <= k < |added| :: MadeAs(added[k], ls[i], CreatePorts(ls[i], pins, PinNames, WrittenTest).value[k])
    requires forall k | 0 <= k < |added| :: added[k].netBundle == null
    ensures PortSpecs(ls[..i + 1], pins).Ok? && Built(made + added, PortSpecs(ls[..i + 1], pins).value)
  {
    assert ls[..i + 1][..i] == ls[..i];
    BuiltAppend(made, PortSpecs(ls[..i], pins).value, added, ls[i], CreatePorts(ls[i], pins, PinNames, WrittenTest).value);
  }

  lemma BuiltAppend(made: seq<Port>, done: seq<(Interface, PortSpec<Pin>)>, added: seq<Port>, iface: Interface, specs: seq<PortSpec<Pin>>)
    requires Built(made, done)
    requires |added| == |specs| && forall k | 0 <= k < |specs| :: MadeAs(added[k], iface, specs[k])
    requires forall k | 0 <= k < |added| :: added[k].netBundle == null
    ensures Built(made + added, done + Tagged(iface, specs))
  {
    var all, tags := made + added, done + Tagged(iface, specs);
    forall k | 0 <= k < |all|
      ensures MadeAs(all[k], tags[k].0, tags[k].1) && all[k].netBundle == null
    {
      if k >= |made| {
        assert all[k] == added[k - |made|];
      }
    }
  }

  // ---------------------------------------------------------------------
  // Part.__init__ (pcbdl/base.py:512-567)
  // ---------------------------------------------------------------------

  /** The current contents of the PINS lists of the part's class layers. */
  function Contents(layers: seq<array<PinEntry>>): (r: seq<seq<PinEntry>>)
    reads set j | 0 <= j < |layers| :: layers[j]
    ensures |r| == |layers| && forall j | 0 <= j < |layers| :: r[j] == layers[j][..]
  {
    seq(|layers|, j reads layers requires 0 <= j < |layers| => layers[j][..])
  }

  /** `[pin for cls in cls_list for pin in cls.PINS]`: every layer's fragments, layer by layer. */
  function AllFragments(contents: seq<seq<PinEntry>>): seq<PinFragment>
    decreases |contents|
  {
    if contents == [] then []
    else AllFragments(contents[..|contents| - 1]) + LayerFragments(contents[|contents| - 1])
  }

  /** Normalising every layer does not change the fragments they declare together. */
  lemma {:induction false} AllFragmentsNormalized(before: seq<seq<PinEntry>>, after: seq<seq<PinEntry>>)
    requires |after| == |before| && forall j | 0 <= j < |before| :: after[j] == Normalized(before[j])
    ensures AllFragments(after) == AllFragments(before)
    decreases |before|
  {
    if before != [] {
      var n := |before| - 1;
      AllFragmentsNormalized(before[..n], after[..n]);
      NormalizedIdempotent(before[n]);
    }
  }

  /** The class pins of the part class: its layers' fragments gathered per pin and resolved. */
  function ClassPins(contents: seq<seq<PinEntry>>): Result<seq<ClassPin>> {
    ResolveAll(Fragments.Gather(AllFragments(contents)))
  }

  /**
   * Instantiating a part: the class layers' PINS lists are normalised in
   * place, their fragments gathered and resolved into the class pins
   * (TypeError if a pin does not bind), one instance pin is made per class
   * pin in order, and the part's interface lines derive its ports from its
   * pins. The first failure is the part's.
   */
  method NewPart(layers: seq<array<PinEntry>>, lines: Option<seq<Interface>>, matchNets: bool, matchPrefix: string)
    returns (r: Result<Part>, ghost ps: seq<Pin>, ghost made: seq<Port>)
    modifies set j | 0 <= j < |layers| :: layers[j]
    ensures forall j | 0 <= j < |layers| :: layers[j][..] == Normalized(old(layers[j][..]))
    ensures ClassPins(old(Contents(layers))).Err? ==> r == Err(TypeError)
    ensures ClassPins(old(Contents(layers))).Ok? ==> PartSpec(ClassPins(old(Contents(layers))).value, lines, r, ps, made)
    ensures r.Ok? ==> (fresh(r.value) && r.value.matchNets == matchNets && r.value.matchPrefix == matchPrefix)
    ensures forall j | 0 <= j < |ps| :: fresh(ps[j]) && ps[j].net == null
    ensures forall k | 0 <= k < |made| :: fresh(made[k])
  {
    var cps := ResolveLayers(layers);
    if cps.Err? {
      return Err(cps.error), [], [];
    }
    ghost var norm := Contents(layers);
    r, ps, made := Instantiate(cps.value, lines, matchNets, matchPrefix);
    assert Contents(layers) == norm;
  }

  /**
   * The first part of `_generate_pin_instances`: normalise the layers in
   * place, gather their fragments per pin and resolve each group.
   */
  method ResolveLayers(layers: seq<array<PinEntry>>) returns (cps: Result<seq<ClassPin>>)
    modifies set j | 0 <= j < |layers| :: layers[j]
    ensures forall j | 0 <= j < |layers| :: layers[j][..] == Normalized(old(layers[j][..]))
    ensures cps == ClassPins(old(Contents(layers)))
    ensures cps.Err? ==> cps.error == TypeError
    ensures cps.Ok? ==> PinNamesDisjoint(cps.value)
  {
    ghost var before := Contents(layers);
    NormalizeLayers(layers);
    AllFragmentsNormalized(before, Contents(layers));
    var fs := DeclaredFragments(layers);
    var groups := GatherFragments(fs);
    cps := ResolveGroups(groups);
    if cps.Ok? {
      GatheredPinsDisjoint(fs);
    }
  }

  /** `_generate_pin_instances` from the resolved class pins on, then `_generate_port_instances`. */
  method Instantiate(cps: seq<ClassPin>, lines: Option<seq<Interface>>, matchNets: bool, matchPrefix: string)
    returns (r: Result<Part>, ghost ps: seq<Pin>, ghost made: seq<Port>)
    requires PinNamesDisjoint(cps)
    ensures PartSpec(cps, lines, r, ps, made)
    ensures r.Ok? ==> (fresh(r.value) && r.value.matchNets == matchNets && r.value.matchPrefix == matchPrefix)
    ensures forall j | 0 <= j < |ps| :: fresh(ps[j]) && ps[j].net == null
    ensures forall k | 0 <= k < |made| :: fresh(made[k])
  {
    made := [];
    var pins;
    pins, ps := MakePins(cps);
    if pins.Err? {
      return Err(pins.error), ps, made;
    }
    MadeDisjoint(ps, cps);
    ListOfPins(ps);
    var ports;
    ports, made := MakePorts(lines, Values(pins.value));
    if ports.Err? {
      return Err(ports.error), ps, made;
    }
    var part := new Part(pins.value, ports.value, matchNets, matchPrefix);
    r := Ok(part);
  }

  /** `all_fragments`, read off the (normalised) layers. */
  method DeclaredFragments(layers: seq<array<PinEntry>>) returns (fs: seq<PinFragment>)
    ensures fs == AllFragments(Contents(layers))
  {
    fs := [];
    var d := 0;
    while d < |layers|
      invariant d <= |layers|
      invariant fs == AllFragments(Contents(layers)[..d])
    {
      assert Contents(layers)[..d + 1][..d] == Contents(layers)[..d];
      fs := fs + LayerFragments(layers[d][..]);
      d := d + 1;
    }
    assert Contents(layers)[..d] == Contents(layers);
  }

  /**
   * What instantiating a part with these class pins gives: the pins made in
   * order; a failing pin's verdict, or else the ports' failure, as the
   * error; otherwise a part holding every pin under its first name and the
   * ports its interface lines derive from those pins.
   */
  ghost predicate PartSpec(cps: seq<ClassPin>, lines: Option<seq<Interface>>, r: Result<Part>, ps: seq<Pin>, made: seq<Port>)
    reads made
  {
    MadeInOrder(ps, cps) &&
    (|ps| < |cps| ==> r.Err? && PinVerdict(cps[|ps|], ListOf(ps)) == Fail(r.error)) &&
    (|ps| == |cps| ==>
      NamesDisjoint(ps, PinNames) &&
      (lines.None? ==> r == Err(AttributeError)) &&
      (lines.Some? ==> (r.Ok? <==> PortSpecs(lines.value, ps).Ok?)) &&
      (lines.Some? && r.Err? ==> r.error == PortSpecs(lines.value, ps).error) &&
      (r.Ok? ==> (r.value.pins == ListOf(ps) && Values(r.value.pins) == ps &&
        Built(made, PortSpecs(lines.value, ps).value) && r.value.ports == StorePorts(Empty(), made))))
  }
}
