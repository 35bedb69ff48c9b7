// The connection engine of pcbdl/base.py: part-instance pins with their
// write-once net, nets with their ordered connection groups and derived
// views, part instances with their pin lists and ports, and net bundles.
module Schematic {
  import opened Core
  import opened OrderedMaps
  import opened Fragments
  import opened Resolution
  import opened Interfaces

  // ---------------------------------------------------------------------
  // Objects
  // ---------------------------------------------------------------------

  /** A pin of a particular part instance (PartInstancePin). */
  class Pin {
    const names: seq<string>
    const numbers: seq<string>
    const pinType: Arg
    /** The resolved well pin, or null when the pin declares none. */
    const well: Pin?
    /** The net the pin is connected to; set at most once. */
    var net: Net?

    constructor (names: seq<string>, numbers: seq<string>, pinType: Arg, well: Pin?)
      ensures this.names == names && this.numbers == numbers && this.pinType == pinType && this.well == well
      ensures net == null
    {
      this.names := names;
      this.numbers := numbers;
      this.pinType := pinType;
      this.well := well;
      net := null;
    }

    /** The `net` setter: the first assignment sticks, any later one raises ValueError. */
    method SetNet(n: Net) returns (out: Outcome)
      modifies this
      ensures old(net) == null ==> out == Pass && net == n
      ensures old(net) != null ==> out == Fail(ValueError) && net == old(net)
    {
      if net != null {
        return Fail(ValueError);
      }
      net := n;
      out := Pass;
    }

    /**
     * Reading `net`: a connected pin answers with its stored net. An
     * unconnected one evaluates `fresh_net << pin` on a fresh unnamed net:
     * the fresh net, holding the single group {pin: IN}, is stored, and the
     * read answers with its view of that group.
     */
    method GetNet(ghost ps: seq<Pin>) returns (n: Net)
      modifies this
      ensures old(net) != null ==> n == old(net) && net == old(net)
      ensures old(net) == null ==>
        net != null && fresh(net) && net.parent == null && net.ownName == None &&
        net.groups == [Put(Empty(), this, DirIn)] &&
        fresh(n) && n.parent == net && n.group == 0
      ensures NetsSet(ps) == if old(net) == null then old(NetsSetExcept(ps, this)) else old(NetsSet(ps))
    {
      if net != null {
        return net;
      }
      var base;
      base, n := OpenNet(DirIn, ps);
    }

    /**
     * `pin.connect(xs, dir)`, which is `pin.net.connect(xs, dir)`. On an
     * unconnected pin the getter answers with the view of the fresh net's
     * only group {pin: IN}, so the targets join that group; `holder` is the
     * net the getter answered with, which the recorded pins now hold.
     */
    method Connect(ts: seq<Target>, dir: ConnectDirection) returns (out: Outcome, ghost plan: Plan, ghost k: nat, ghost holder: Net)
      requires net != null ==> net.Valid()
      modifies this, if net == null then {} else {net.Base()}, PlanOf(ts, if net == null then None else net.Name()).pins
      ensures plan == PlanOf(ts, if old(net) == null then None else old(net.Name()))
      ensures k == FirstConflict(plan.pins, if old(net) == null then old(NetsSetExcept(plan.pins, this)) else old(NetsSet(plan.pins)))
      ensures out == ConnectOutcome(plan, k)
      ensures forall p | p in plan.pins && p != this :: p.net == if p in plan.pins[..k] then holder else old(p.net)
      ensures old(net) != null ==> (net == old(net) && holder == net && net.Valid() &&
        net.Base().groups == Extended(old(net.Base().groups), net.Slot(), Pairs(Recorded(plan.pins, k), dir)) &&
        forall p | p in plan.pins :: p.net == if p in plan.pins[..k] then net else old(p.net))
      ensures old(net) == null ==> (fresh(net) && net.parent == null && net.ownName == None &&
        net.groups == [ExtendGroup(Put(Empty(), this, DirIn), Pairs(Recorded(plan.pins, k), dir))] &&
        fresh(holder) && holder.parent == net && holder.group == 0)
    {
      if net != null {
        out, plan, k, holder := ConnectStored(ts, dir);
      } else {
        out, plan, k, holder := ConnectFresh(ts, dir);
      }
    }

    /** The connected case of Connect: the getter answers with the stored net. */
    method ConnectStored(ts: seq<Target>, dir: ConnectDirection) returns (out: Outcome, ghost plan: Plan, ghost k: nat, ghost holder: Net)
      requires net != null && net.Valid()
      modifies this, net.Base(), PlanOf(ts, net.Name()).pins
      ensures plan == PlanOf(ts, old(net.Name())) && k == FirstConflict(plan.pins, old(NetsSet(plan.pins)))
      ensures out == ConnectOutcome(plan, k)
      ensures net == old(net) && holder == net && net.Valid()
      ensures net.Base().groups == Extended(old(net.Base().groups), net.Slot(), Pairs(Recorded(plan.pins, k), dir))
      ensures forall p | p in plan.pins :: p.net == if p in plan.pins[..k] then net else old(p.net)
    {
      holder := net;
      out, plan, k := net.Connect(ts, dir);
    }

    /** The unconnected case of Connect: the getter makes the fresh net and answers with its view. */
    method ConnectFresh(ts: seq<Target>, dir: ConnectDirection) returns (out: Outcome, ghost plan: Plan, ghost k: nat, ghost holder: Net)
      requires net == null
      modifies this, PlanOf(ts, None).pins
      ensures plan == PlanOf(ts, None) && k == FirstConflict(plan.pins, old(NetsSetExcept(plan.pins, this)))
      ensures out == ConnectOutcome(plan, k)
      ensures fresh(net) && net.parent == null && net.ownName == None
      ensures net.groups == [ExtendGroup(Put(Empty(), this, DirIn), Pairs(Recorded(plan.pins, k), dir))]
      ensures fresh(holder) && holder.parent == net && holder.group == 0
      ensures forall p | p in plan.pins && p != this :: p.net == if p in plan.pins[..k] then holder else old(p.net)
    {
      ghost var flags := NetsSetExcept(PlanOf(ts, None).pins, this);
      var base, view := OpenNet(DirIn, PlanOf(ts, None).pins);
      holder := view;
      assert view.Base() == base && view.Name() == None;
      ghost var g0 := Put(Empty(), this, DirIn);
      ghost var objs: seq<object> := PlanOf(ts, None).pins;
      assert base !in objs;
      out, plan, k := view.Connect(ts, dir);
      SelfNotRecorded(this, plan.pins, flags);
      assert net == base;
      assert base.groups == [ExtendGroup(g0, Pairs(Recorded(plan.pins, k), dir))];
    }

    /**
     * `pin << xs` (`op` is LShift) and `pin >> xs` (RShift). A connected pin
     * evaluates `net << xs` (or `>>`) on its stored net. An unconnected one
     * first makes a fresh unnamed net and evaluates `net >>= pin` (or
     * `<<=`) on it, which stores that net in the pin and gives its view of
     * the new group; it then evaluates `view << xs` on the view, which
     * extends that same group. So the pin takes the opposite direction to
     * the operator's, and the targets take the operator's.
     */
    method ShiftFrom(op: Operator, ts: seq<Target>) returns (r: Result<Net>, ghost plan: Plan, ghost k: nat, ghost holder: Net)
      requires net != null ==> net.Valid()
      modifies this, if net == null then {} else {net.Base()}, PlanOf(ts, if net == null then None else net.Name()).pins
      ensures plan == PlanOf(ts, if old(net) == null then None else old(net.Name()))
      ensures k == FirstConflict(plan.pins, if old(net) == null then old(NetsSetExcept(plan.pins, this)) else old(NetsSet(plan.pins)))
      ensures r.Ok? <==> ConnectOutcome(plan, k) == Pass
      ensures r.Err? ==> ConnectOutcome(plan, k) == Fail(r.error)
      ensures net != null && net.Valid() && holder.Valid() && holder.Base() == net.Base()
      ensures forall p | p in plan.pins && p != this :: p.net == if p in plan.pins[..k] then holder else old(p.net)
      ensures old(net) != null ==> (net == old(net) && holder == net &&
        net.Base().groups == Extended(old(net.Base().groups), net.Slot(), Pairs(Recorded(plan.pins, k), Towards(op))) &&
        (r.Ok? ==> r.value.Base() == net.Base() && r.value.Valid()))
      ensures old(net) == null ==> (fresh(net) && net.parent == null && net.ownName == None &&
        net.groups == [ExtendGroup(Put(Empty(), this, Away(op)), Pairs(Recorded(plan.pins, k), Towards(op)))] &&
        fresh(holder) && holder.parent == net && holder.group == 0 && (r.Ok? ==> r.value == holder))
    {
      if net != null {
        r, plan, k, holder := ShiftStored(op, ts);
      } else {
        r, plan, k, holder := ShiftFresh(op, ts);
      }
    }

    /** The connected case of ShiftFrom: `net << xs` on the stored net. */
    method ShiftStored(op: Operator, ts: seq<Target>) returns (r: Result<Net>, ghost plan: Plan, ghost k: nat, ghost holder: Net)
      requires net != null && net.Valid()
      modifies net.Base(), PlanOf(ts, net.Name()).pins
      ensures plan == PlanOf(ts, old(net.Name())) && k == FirstConflict(plan.pins, old(NetsSet(plan.pins)))
      ensures r.Ok? <==> ConnectOutcome(plan, k) == Pass
      ensures r.Err? ==> ConnectOutcome(plan, k) == Fail(r.error)
      ensures net == old(net) && holder == net && net.Valid()
      ensures forall p | p in plan.pins :: p.net == if p in plan.pins[..k] then holder else old(p.net)
      ensures net.Base().groups == Extended(old(net.Base().groups), net.Slot(), Pairs(Recorded(plan.pins, k), Towards(op)))
      ensures r.Ok? ==> r.value.Base() == net.Base() && r.value.Valid()
    {
      holder := net;
      r, plan, k := net.Shift(Towards(op), ts);
    }

    /** The unconnected case of ShiftFrom. */
    method ShiftFresh(op: Operator, ts: seq<Target>) returns (r: Result<Net>, ghost plan: Plan, ghost k: nat, ghost holder: Net)
      requires net == null
      modifies this, PlanOf(ts, None).pins
      ensures plan == PlanOf(ts, None) && k == FirstConflict(plan.pins, old(NetsSetExcept(plan.pins, this)))
      ensures r.Ok? <==> ConnectOutcome(plan, k) == Pass
      ensures r.Err? ==> ConnectOutcome(plan, k) == Fail(r.error)
      ensures net != null && fresh(net) && net.parent == null && net.ownName == None
      ensures net.groups == [ExtendGroup(Put(Empty(), this, Away(op)), Pairs(Recorded(plan.pins, k), Towards(op)))]
      ensures fresh(holder) && holder.parent == net && holder.group == 0 && (r.Ok? ==> r.value == holder)
      ensures forall p | p in plan.pins && p != this :: p.net == if p in plan.pins[..k] then holder else old(p.net)
    {
      ghost var flags := NetsSetExcept(PlanOf(ts, None).pins, this);
      var base, view := OpenNet(Away(op), PlanOf(ts, None).pins);
      holder := view;
      assert view.Base() == base && view.Name() == None;
      ghost var g0 := Put(Empty(), this, Away(op));
      r, plan, k := view.Shift(Towards(op), ts);
      FirstConflictSpec(plan.pins, flags);
      assert this !in plan.pins[..k];
      assert base.groups == [ExtendGroup(g0, Pairs(Recorded(plan.pins, k), Towards(op)))];
    }

    /** `net = Net(); net >>= pin` (or `<<=`, as `dir` says) on an unconnected pin: the fresh net and its view. */
    method OpenNet(dir: ConnectDirection, ghost ps: seq<Pin>) returns (base: Net, view: Net)
      requires net == null
      modifies this
      ensures fresh(base) && base.parent == null && base.ownName == None && base.groups == [Put(Empty(), this, dir)]
      ensures fresh(view) && view.parent == base && view.group == 0 && net == base
      ensures NetsSet(ps) == old(NetsSetExcept(ps, this))
    {
      base := new Net(None);
      assert PlanOf([PinT(this)], None) == Plan([this], None);
      var first;
      ghost var plan, k;
      first, plan, k := base.Shift(dir, [PinT(this)]);
      assert k == 1 && Recorded(plan.pins, k) == [this];
      assert Pairs([this], dir) == [] + [(this, dir)];
      PutAllAppend(Empty(), [], this, dir);
      view := first.value;
    }
  }

  /** The two shift operators. */
  datatype Operator = LShift | RShift

  /** The direction an operator records for its right-hand side: `<<` IN, `>>` OUT. */
  function Towards(op: Operator): ConnectDirection {
    if op == LShift then DirIn else DirOut
  }

  /** The direction it records for a pin on its left-hand side: the other one. */
  function Away(op: Operator): (d: ConnectDirection)
    ensures d != Towards(op) && d != DirUnknown
  {
    if op == LShift then DirOut else DirIn
  }

  /**
   * A net. A base net (`parent == null`) owns its connection groups, each an
   * ordered map from pin to direction. A derived view (the copy `_shift`
   * returns) has the base net as `parent` and stands for the base net's
   * group number `group`; it shares the base's groups and name.
   */
  class Net {
    const parent: Net?
    const group: nat
    var ownName: Option<string>
    var groups: seq<Group>

    /** `Net(name)`: no groups yet, the name upper-cased; no name makes an unnamed net. */
    constructor (name: Option<string>)
      ensures parent == null && groups == []
      ensures ownName == if name.Some? then Some(Upper(name.value)) else None
    {
      parent := null;
      group := 0;
      ownName := if name.Some? then Some(Upper(name.value)) else None;
      groups := [];
    }

    /** The view of the last group of `p`, as `_shift` makes it. */
    constructor View(p: Net)
      requires p.parent == null && p.groups != []
      ensures parent == p && group == |p.groups| - 1 && ownName == p.ownName && groups == []
    {
      parent := p;
      group := |p.groups| - 1;
      ownName := p.ownName;
      groups := [];
    }

    /** The net whose groups this object reads and changes. */
    function Base(): Net {
      if parent == null then this else parent
    }

    ghost predicate Valid()
      reads Base()
    {
      parent != null ==> parent.parent == null && group < |parent.groups|
    }

    /** The `name` property: a view answers with its parent's name; `None` is the unnamed placeholder. */
    function Name(): Option<string>
      reads Base()
    {
      Base().ownName
    }

    /** The `name` setter: upper-cases; on a view the stored name is never read back. */
    method SetName(n: string)
      modifies this
      ensures ownName == Some(Upper(n)) && groups == old(groups)
    {
      ownName := Some(Upper(n));
    }

    /** `grouped_connections`: the pins of each group, groups in order. */
    function Grouped(): seq<seq<Pin>>
      reads Base()
    {
      GroupKeys(Base().groups)
    }

    /** `connections`: every connected pin, group after group. */
    function Connections(): seq<Pin>
      reads Base()
    {
      Flatten(Grouped())
    }

    /** `is_power`: the name mentions VCC, PP or VBUS. */
    predicate IsPowerNet()
      reads Base()
    {
      IsPower(Name())
    }

    /** `is_gnd`: the name mentions GND. */
    predicate IsGndNet()
      reads Base()
    {
      IsGnd(Name())
    }

    /**
     * `Net.connect`. On a base net it appends one new group; on a view it
     * extends the view's group. Each target is resolved to a pin in turn;
     * the pin is recorded in the group with `dir` and then its net is set
     * to this object. The first resolution failure, or the first pin whose
     * net is already set, stops the loop with that error; what was done up
     * to there stays done, including the recording of the pin whose net
     * could not be set. Resolution depends only on the net's name and on
     * the parts' pin lists, which the loop never changes, so the model
     * resolves the targets first (PlanOf) and then attaches the pins.
     */
    method Connect(ts: seq<Target>, dir: ConnectDirection) returns (out: Outcome, ghost plan: Plan, ghost k: nat)
      requires Valid()
      modifies Base(), PlanOf(ts, Name()).pins
      ensures plan == PlanOf(ts, old(Name())) && k == FirstConflict(plan.pins, old(NetsSet(plan.pins)))
      ensures Valid() && Base().ownName == old(Base().ownName)
      ensures out == ConnectOutcome(plan, k)
      ensures Base().groups == Extended(old(Base().groups), Slot(), Pairs(Recorded(plan.pins, k), dir))
      ensures forall p | p in plan.pins :: p.net == if p in plan.pins[..k] then this else old(p.net)
    {
      var resolved := PlanOf(ts, Name());
      var pins := resolved.pins;
      var failure := resolved.failure;
      plan := resolved;
      ghost var was := NetsSet(pins);
      k := FirstConflict(pins, was);
      var base := Base();
      var gi: nat;
      if parent == null {
        base.groups := base.groups + [Empty()];
        gi := |base.groups| - 1;
      } else {
        gi := group;
      }
      out := Attach(base, gi, this, pins, dir, was);
      if out == Pass && failure.Some? {
        out := Fail(failure.value);
      }
      assert parent == null ==> base.groups == old(base.groups) + [ExtendGroup(Empty(), Pairs(Recorded(pins, k), dir))];
    }

    /** Which group a connect fills: a new one on a base net, the view's own on a view. */
    function Slot(): Option<nat> {
      if parent == null then None else Some(group)
    }

    /**
     * `_shift`, behind `<<` (IN) and `>>` (OUT): connect, then answer with a
     * view of the group just made; a view answers with itself. When the
     * connect raises, no view is made.
     */
    method Shift(dir: ConnectDirection, ts: seq<Target>) returns (r: Result<Net>, ghost plan: Plan, ghost k: nat)
      requires Valid()
      modifies Base(), PlanOf(ts, Name()).pins
      ensures plan == PlanOf(ts, old(Name())) && k == FirstConflict(plan.pins, old(NetsSet(plan.pins)))
      ensures Valid() && Base().ownName == old(Base().ownName)
      ensures r.Ok? <==> ConnectOutcome(plan, k) == Pass
      ensures r.Err? ==> ConnectOutcome(plan, k) == Fail(r.error)
      ensures Base().groups == Extended(old(Base().groups), Slot(), Pairs(Recorded(plan.pins, k), dir))
      ensures forall p | p in plan.pins :: p.net == if p in plan.pins[..k] then this else old(p.net)
      ensures r.Ok? && parent == null ==>
        fresh(r.value) && r.value.parent == this && r.value.group == |groups| - 1 && r.value.Valid()
      ensures r.Ok? && parent != null ==> r.value == this
    {
      var out;
      out, plan, k := Connect(ts, dir);
      if out.Fail? {
        return Err(out.error), plan, k;
      }
      if parent != null {
        return Ok(this), plan, k;
      }
      var v := new Net.View(this);
      return Ok(v), plan, k;
    }
  }

  /**
   * The loop of `Net.connect` over resolved pins: each is recorded in group
   * `gi` of `base` and then given `owner` as its net, until a pin's net
   * setter raises. `was` says which pins were connected beforehand.
   */
  method Attach(base: Net, gi: nat, owner: Net, ps: seq<Pin>, dir: ConnectDirection, ghost was: seq<bool>) returns (out: Outcome)
    requires gi < |base.groups| && was == NetsSet(ps)
    modifies base, ps
    ensures base.ownName == old(base.ownName)
    ensures var k := FirstConflict(ps, was);
      out == (if k < |ps| then Fail(ValueError) else Pass) &&
      base.groups == old(base.groups)[gi := ExtendGroup(old(base.groups[gi]), Pairs(Recorded(ps, k), dir))]
    ensures var k := FirstConflict(ps, was);
      forall p | p in ps :: p.net == if p in ps[..k] then owner else old(p.net)
  {
    out := Pass;
    ghost var k := FirstConflict(ps, was);
    ghost var start := base.groups;
    ghost var nets0 := PinNets(ps);
    var i := 0;
    while i < |ps|
      invariant i <= k && k <= |ps|
      invariant base.groups == start[gi := ExtendGroup(start[gi], Pairs(ps[..i], dir))]
      invariant base.ownName == old(base.ownName)
      invariant forall j | 0 <= j < |ps| :: ps[j].net == if ps[j] in ps[..i] then owner else nets0[j]
    {
      var o := AttachStep(base, gi, owner, ps, dir, was, nets0, start, k, i);
      if o.Fail? {
        return o;
      }
      i := i + 1;
    }
    assert ps[..i] == ps;
  }

  /**
   * Pass `i` of that loop, from the state the earlier passes left: the
   * group is extended by pin `i`, and the pin gets `owner` unless it is the
   * first conflict. `nets0` are the pins' nets before the loop.
   */
  method AttachStep(base: Net, gi: nat, owner: Net, ps: seq<Pin>, dir: ConnectDirection, ghost was: seq<bool>,
                    ghost nets0: seq<Net?>, ghost start: seq<Group>, ghost k: nat, i: nat) returns (o: Outcome)
    requires gi < |start| && i < |ps| && |was| == |ps| && |nets0| == |ps|
    requires k == FirstConflict(ps, was) && i <= k
    requires forall j | 0 <= j < |ps| :: was[j] == (nets0[j] != null)
    requires base.groups == start[gi := ExtendGroup(start[gi], Pairs(ps[..i], dir))]
    requires forall j | 0 <= j < |ps| :: ps[j].net == if ps[j] in ps[..i] then owner else nets0[j]
    modifies base, ps[i]
    ensures base.ownName == old(base.ownName)
    ensures base.groups == start[gi := ExtendGroup(start[gi], Pairs(ps[..i + 1], dir))]
    ensures o.Fail? ==> o == Fail(ValueError) && k == i
    ensures o.Pass? ==> i + 1 <= k
    ensures o.Fail? ==> forall j | 0 <= j < |ps| :: ps[j].net == if ps[j] in ps[..i] then owner else nets0[j]
    ensures o.Pass? ==> forall j | 0 <= j < |ps| :: ps[j].net == if ps[j] in ps[..i + 1] then owner else nets0[j]
  {
    var p := ps[i];
    assert p.net != null <==> was[i] || p in ps[..i];
    ghost var before := base.groups;
    ghost var netsBefore := PinNets(ps);
    o := AttachOne(base, gi, owner, p, dir, ps);
    RecordStep(start, gi, ps, i, dir, before, base.groups);
    if o.Fail? {
      ConflictAt(ps, was, k, i);
    } else {
      ConflictLater(ps, was, k, i);
      PassNets(ps, i, owner, nets0, netsBefore, PinNets(ps));
    }
  }

  /** Pin `i` now holds `owner` and no other pin changed: the first `i + 1` pins hold `owner`. */
  lemma PassNets(ps: seq<Pin>, i: nat, owner: Net, nets0: seq<Net?>, before: seq<Net?>, after: seq<Net?>)
    requires i < |ps| && |nets0| == |ps| && |before| == |ps| && |after| == |ps|
    requires forall j | 0 <= j < |ps| :: before[j] == if ps[j] in ps[..i] then owner else nets0[j]
    requires forall j | 0 <= j < |ps| :: after[j] == if ps[j] == ps[i] then owner else before[j]
    ensures forall j | 0 <= j < |ps| :: after[j] == if ps[j] in ps[..i + 1] then owner else nets0[j]
  {
    assert ps[..i + 1] == ps[..i] + [ps[i]];
  }

  /** One pass of that loop: `connection_group[pin] = direction`, then `pin.net = owner`. */
  method AttachOne(base: Net, gi: nat, owner: Net, p: Pin, dir: ConnectDirection, ghost ps: seq<Pin>) returns (o: Outcome)
    requires gi < |base.groups|
    modifies base, p
    ensures base.ownName == old(base.ownName)
    ensures forall j | 0 <= j < |ps| && ps[j] != p :: ps[j].net == old(ps[j].net)
    ensures base.groups == old(base.groups)[gi := Put(old(base.groups[gi]), p, dir)]
    ensures old(p.net) == null ==> o == Pass && p.net == owner
    ensures old(p.net) != null ==> o == Fail(ValueError) && p.net == old(p.net)
  {
    var g: Group := Put(base.groups[gi], p, dir);
    base.groups := base.groups[gi := g];
    o := p.SetNet(owner);
  }

  /** Recording pin `i` extends the group by one more assignment. */
  lemma RecordStep(start: seq<Group>, gi: nat, ps: seq<Pin>, i: nat, dir: ConnectDirection, before: seq<Group>, after: seq<Group>)
    requires gi < |start| && i < |ps|
    requires before == start[gi := ExtendGroup(start[gi], Pairs(ps[..i], dir))]
    requires after == before[gi := Put(before[gi], ps[i], dir)]
    ensures after == start[gi := ExtendGroup(start[gi], Pairs(ps[..i + 1], dir))]
  {
    ExtendOne(start[gi], ps, i, dir);
    var e := ExtendGroup(start[gi], Pairs(ps[..i + 1], dir));
    assert after[gi] == e;
    assert |after| == |start[gi := e]|;
    assert forall j | 0 <= j < |after| :: after[j] == start[gi := e][j];
  }

  /** Extending a group by the first `i + 1` pins is extending it by `i` and then putting pin `i`. */
  lemma ExtendOne(g: Group, ps: seq<Pin>, i: nat, dir: ConnectDirection)
    requires i < |ps|
    ensures ExtendGroup(g, Pairs(ps[..i + 1], dir)) == Put(ExtendGroup(g, Pairs(ps[..i], dir)), ps[i], dir)
  {
    assert ps[..i + 1] == ps[..i] + [ps[i]];
    PairsAppend(ps[..i], ps[i], dir);
    PutAllAppend(g, Pairs(ps[..i], dir), ps[i], dir);
  }

  /** One connection group: pins in the order they joined, each with its direction. */
  type Group = m: OMap<Pin, ConnectDirection> | m.Valid() witness OMap([], map[])

  /** An ordered dictionary of pins (a _PinList) or of ports. */
  type PinList = m: OMap<string, Pin> | m.Valid() witness OMap([], map[])
  type PortList = m: OMap<string, Port> | m.Valid() witness OMap([], map[])

  /** A part instance: its pin list keyed by first name, its ports, and its net-name matching mode. */
  class Part {
    const pins: PinList
    const ports: PortList
    const matchNets: bool
    const matchPrefix: string

    constructor (pins: PinList, ports: PortList, matchNets: bool, matchPrefix: string)
      ensures this.pins == pins && this.ports == ports && this.matchNets == matchNets && this.matchPrefix == matchPrefix
    {
      this.pins := pins;
      this.ports := ports;
      this.matchNets := matchNets;
      this.matchPrefix := matchPrefix;
    }
  }

  /** A port of a part instance (PartInstancePort): its pins by signal name, and a write-once bundle. */
  class Port {
    const name: string
    const pins: PinList
    const iface: Interface
    var netBundle: NetBundle?

    constructor (name: string, pins: PinList, iface: Interface)
      ensures this.name == name && this.pins == pins && this.iface == iface && netBundle == null
    {
      this.name := name;
      this.pins := pins;
      this.iface := iface;
      netBundle := null;
    }

    /** The `net_bundle` setter: the first assignment sticks, any later one raises ValueError. */
    method SetNetBundle(b: NetBundle) returns (out: Outcome)
      modifies this
      ensures old(netBundle) == null ==> out == Pass && netBundle == b
      ensures old(netBundle) != null ==> out == Fail(ValueError) && netBundle == old(netBundle)
    {
      if netBundle != null {
        return Fail(ValueError);
      }
      netBundle := b;
      out := Pass;
    }
  }

  /**
   * A net bundle: one net per signal of an interface class, keyed by the
   * signal's main name, and the ports connected so far.
   */
  class NetBundle {
    const cls: InterfaceClass
    const prefix: string
    const nets: OMap<string, Net>
    var connections: seq<Port>

    constructor (cls: InterfaceClass, prefix: string, nets: OMap<string, Net>)
      ensures this.cls == cls && this.prefix == prefix && this.nets == nets && connections == []
    {
      this.cls := cls;
      this.prefix := prefix;
      this.nets := nets;
      connections := [];
    }

    /** The nets the constructor makes: base nets, a different one per signal name. */
    ghost predicate Valid() {
      nets.Valid() &&
      (forall s | s in nets.entries :: nets.entries[s].parent == null) &&
      (forall s, t | s in nets.entries && t in nets.entries && s != t :: nets.entries[s] != nets.entries[t])
    }

    /**
     * `NetBundle.connect(others)` (and the bundle's `<<`, `>>`): for each
     * target in order, find its port (TypeError on an interface mismatch,
     * AttributeError on a target with no port, before anything of that
     * target is touched), connect the signals and record the port. The
     * first failure stops the loop, keeping what the targets before it did;
     * `done` counts the targets that went through. For a single target, `k`
     * is the signal that stopped the signal loop and `PortConnected` says
     * what it did.
     */
    method Connect(ts: seq<Target>) returns (out: Outcome, done: nat, ghost k: nat)
      requires Valid()
      modifies this, AllTouched(ts, this)
      ensures done <= |ts| && (out == Pass <==> done == |ts|)
      ensures forall i | 0 <= i < done :: PortForAsWritten(ts[i], cls).Ok?
      ensures connections == old(connections) + TargetPorts(ts, cls, done)
      ensures forall i | |old(connections)| <= i < |connections| :: connections[i].netBundle == this
      ensures done < |ts| && PortForAsWritten(ts[done], cls).Err? ==> out == Fail(PortForAsWritten(ts[done], cls).error)
      ensures |ts| > 0 && PortForAsWritten(ts[0], cls).Err? ==>
        connections == old(connections) && forall n | n in nets.entries.Values :: n.groups == old(n.groups)
      ensures |ts| == 1 && PortForAsWritten(ts[0], cls).Ok? ==>
        old(allocated(PortForAsWritten(ts[0], cls).value)) &&
          PortConnected(this, PortForAsWritten(ts[0], cls).value, out, k, old(Before(this, PortForAsWritten(ts[0], cls).value)))
    {
      out := Pass;
      done := 0;
      k := 0;
      ghost var single := |ts| == 1 && PortForAsWritten(ts[0], cls).Ok?;
      ghost var s0 := if single then Before(this, PortForAsWritten(ts[0], cls).value) else PortBefore([], null, [], [], [], []);
      while done < |ts|
        invariant done <= |ts| && out == Pass
        invariant forall i | 0 <= i < done :: PortForAsWritten(ts[i], cls).Ok?
        invariant connections == old(connections) + TargetPorts(ts, cls, done)
        invariant forall i | |old(connections)| <= i < |connections| :: connections[i].netBundle == this
        invariant done == 0 ==> forall n | n in nets.entries.Values :: n.groups == old(n.groups)
        invariant single && done == 0 ==> Before(this, PortForAsWritten(ts[0], cls).value) == s0
        invariant single && done == 1 ==> PortConnected(this, PortForAsWritten(ts[0], cls).value, out, k, s0)
      {
        TouchedWithin(ts, this, done);
        ghost var before := connections;
        out, k := ConnectOne(ts[done], |old(connections)|);
        if out.Fail? {
          return;
        }
        TargetPortsNext(old(connections), before, ts, cls, done);
        done := done + 1;
      }
    }

    /**
     * One turn of the target loop: resolve the target's port, connect its
     * signals and record it, keeping every port recorded since `n0` bound
     * to this bundle.
     */
    method ConnectOne(t: Target, ghost n0: nat) returns (out: Outcome, ghost k: nat)
      requires Valid() && n0 <= |connections|
      requires forall i | n0 <= i < |connections| :: connections[i].netBundle == this
      modifies this, Touched(t, this)
      ensures PortForAsWritten(t, cls).Err? ==> out == Fail(PortForAsWritten(t, cls).error) && unchanged(this)
      ensures PortForAsWritten(t, cls).Err? ==> unchanged(nets.entries.Values)
      ensures out == Pass ==> PortForAsWritten(t, cls).Ok? && connections == old(connections) + [PortForAsWritten(t, cls).value]
      ensures out != Pass ==> connections == old(connections)
      ensures n0 <= |connections| && forall i | n0 <= i < |connections| :: connections[i].netBundle == this
      ensures PortForAsWritten(t, cls).Ok? ==>
        old(allocated(PortForAsWritten(t, cls).value)) &&
        PortConnected(this, PortForAsWritten(t, cls).value, out, k, old(Before(this, PortForAsWritten(t, cls).value)))
    {
      k := 0;
      var found := PortForAsWritten(t, cls);
      if found.Err? {
        return Fail(found.error), k;
      }
      var port := found.value;
      ghost var recorded := connections;
      label before:
      out, k := ConnectPort(port);
      forall i | n0 <= i < |recorded|
        ensures recorded[i].netBundle == this
      {
        if recorded[i] != port {
          PortNotTouched(this, port, recorded[i]);
          assert recorded[i].netBundle == old@before(recorded[i].netBundle);
        }
      }
    }

    /**
     * The end of `NetBundle.connect` for one port whose signals gave
     * `signals`: on success the port's bundle is set (ValueError if it
     * already has one) and the port recorded; otherwise nothing happens.
     */
    method Record(port: Port, signals: Outcome, ghost steps: Steps, ghost k: nat,
      ghost before: seq<Port>, ghost was: NetBundle?) returns (out: Outcome)
      requires signals == ConnectOutcome(Plan(steps.pins, steps.failure), k)
      requires before == connections && was == port.netBundle
      modifies this, port
      ensures ConnectsPort(before, connections, port, was, out, steps, k, this)
      ensures forall j | 0 <= j < |steps.nets| :: steps.nets[j].groups == old(steps.nets[j].groups) && steps.nets[j].ownName == old(steps.nets[j].ownName)
      ensures forall j | 0 <= j < |steps.pins| :: steps.pins[j].net == old(steps.pins[j].net)
    {
      out := signals;
      if out == Pass {
        out := port.SetNetBundle(this);
        if out == Pass {
          connections := connections + [port];
        }
      }
    }

    /**
     * The signal loop of `NetBundle.connect` for one port: connect each
     * signal's net to the port's pin for that signal, then set the port's
     * bundle and record the port. A failure stops there, keeping what was
     * done.
     */
    method ConnectPort(port: Port) returns (out: Outcome, ghost k: nat)
      requires Valid()
      modifies this, PortTouched(this, port)
      ensures var steps := StepsOf(cls.signals, this, port);
        k == FirstConflict(steps.pins, old(NetsSet(steps.pins))) &&
        ConnectsPort(old(connections), connections, port, old(port.netBundle), out, steps, k, this)
      ensures var steps := StepsOf(cls.signals, this, port);
        k <= |steps.pins| && SignalsConnected(steps.nets, steps.pins, k)
    {
      ghost var before, was := connections, port.netBundle;
      var steps := StepsOf(cls.signals, this, port);
      StepsOfBase(cls.signals, this, port, steps);
      var netsOut;
      ghost var touched: seq<object> := steps.nets + steps.pins;
      assert this !in touched && port !in touched;
      netsOut, k := ConnectSignals(steps.nets, steps.pins, NetsSet(steps.pins));
      var signalsOut := if netsOut == Pass && steps.failure.Some? then Fail(steps.failure.value) else netsOut;
      SignalsOutcome(netsOut, signalsOut, Plan(steps.pins, steps.failure), k);
      out := Record(port, signalsOut, steps, k, before, was);
    }
  }

  /**
   * `NetBundle(interface, prefix)`: for each signal in order, a fresh net
   * named after the prefix and the signal's main name joined by "_" (the
   * net upper-cases it), stored under the main name; a later signal with
   * the same main name replaces the earlier net. The first signal without
   * a main name stops construction with its error.
   */
  method NewBundle(cls: InterfaceClass, prefix: string) returns (r: Result<NetBundle>)
    ensures r.Err? <==> BundleNets(cls.signals, prefix).Err?
    ensures r.Err? ==> r.error == BundleNets(cls.signals, prefix).error
    ensures r.Ok? ==> (fresh(r.value) && r.value.Valid() && r.value.cls == cls && r.value.prefix == prefix &&
      r.value.connections == [])
    ensures r.Ok? ==> r.value.nets.keys == Dedup(KeysOf(BundleNets(cls.signals, prefix).value))
    ensures r.Ok? ==> forall s | s in r.value.nets.entries :: (fresh(r.value.nets.entries[s]) &&
      r.value.nets.entries[s].ownName == Some(Upper(prefix + "_" + s)) && r.value.nets.entries[s].groups == [])
  {
    var signals := cls.signals;
    var nets: OMap<string, Net> := Empty();
    ghost var kvs: seq<(string, Net)> := [];
    var i := 0;
    while i < |signals|
      invariant i <= |signals| && |kvs| == i
      invariant forall j | 0 <= j < i :: SignalName(signals[j]).Ok? && kvs[j].0 == SignalName(signals[j]).value
      invariant nets == PutAll(Empty(), kvs)
      invariant FreshNets(nets, prefix) && DistinctNets(nets)
    {
      var name := SignalName(signals[i]);
      if name.Err? {
        FirstMissingName(signals, prefix, i);
        return Err(name.error);
      }
      var net;
      ghost var kvs0 := kvs;
      net, nets, kvs := AddNet(nets, prefix, name.value, kvs);
      NamedStep(signals, kvs0, i, net);
      i := i + 1;
    }
    BundleKeys(signals, prefix, kvs);
    var b := new NetBundle(cls, prefix, nets);
    r := Ok(b);
  }

  /** The nets stored so far are keyed by the first signals' main names; one more signal extends them. */
  lemma NamedStep(signals: seq<Signal>, kvs: seq<(string, Net)>, i: nat, net: Net)
    requires i < |signals| && |kvs| == i && SignalName(signals[i]).Ok?
    requires forall j | 0 <= j < i :: SignalName(signals[j]).Ok? && kvs[j].0 == SignalName(signals[j]).value
    ensures var kvs' := kvs + [(SignalName(signals[i]).value, net)];
      forall j | 0 <= j < i + 1 :: SignalName(signals[j]).Ok? && kvs'[j].0 == SignalName(signals[j]).value
  {
  }

  /** Every net is new, a base net, named after the prefix and its key, and not connected. */
  twostate predicate FreshNets(new nets: OMap<string, Net>, prefix: string)
    reads nets.entries.Values
  {
    forall s | s in nets.entries :: (fresh(nets.entries[s]) && nets.entries[s].parent == null &&
      nets.entries[s].ownName == Some(Upper(prefix + "_" + s)) && nets.entries[s].groups == [])
  }

  /** Different keys hold different nets. */
  predicate DistinctNets(nets: OMap<string, Net>) {
    forall s, t | s in nets.entries && t in nets.entries && s != t :: nets.entries[s] != nets.entries[t]
  }

  /** `net = Net(prefix + "_" + name); self[name] = net`. */
  method AddNet(nets: OMap<string, Net>, prefix: string, name: string, ghost kvs: seq<(string, Net)>)
    returns (net: Net, after: OMap<string, Net>, ghost kvs': seq<(string, Net)>)
    requires nets == PutAll(Empty(), kvs) && DistinctNets(nets)
    ensures fresh(net) && net.parent == null && net.ownName == Some(Upper(prefix + "_" + name)) && net.groups == []
    ensures kvs' == kvs + [(name, net)] && after == Put(nets, name, net)
    ensures after == PutAll(Empty(), kvs') && DistinctNets(after)
  {
    net := new Net(Some(prefix + "_" + name));
    after := Put(nets, name, net);
    kvs' := kvs + [(name, net)];
    PutAllAppend(Empty(), kvs, name, net);
  }

  /** Assigning the nets under the signals' main names, in order, leaves the main names as keys, each once. */
  lemma BundleKeys(signals: seq<Signal>, prefix: string, kvs: seq<(string, Net)>)
    requires |kvs| == |signals|
    requires forall j | 0 <= j < |signals| :: SignalName(signals[j]).Ok? && kvs[j].0 == SignalName(signals[j]).value
    ensures BundleNets(signals, prefix).Ok?
    ensures PutAll(Empty(), kvs).keys == Dedup(KeysOf(BundleNets(signals, prefix).value))
  {
    assert KeysOf(kvs) == KeysOf(BundleNets(signals, prefix).value);
    PutAllKeys(Empty(), kvs);
    assert Empty<string, Net>().entries.Keys == {};
  }

  /** The first signal without a main name decides the error of BundleNets. */
  lemma FirstMissingName(signals: seq<Signal>, prefix: string, i: nat)
    requires i < |signals| && SignalName(signals[i]).Err?
    requires forall j | 0 <= j < i :: SignalName(signals[j]).Ok?
    ensures BundleNets(signals, prefix).Err? && BundleNets(signals, prefix).error == SignalName(signals[i]).error
  {
    var e := BundleNets(signals, prefix).error;
    var w :| 0 <= w < |signals| && (forall j | 0 <= j < w :: SignalName(signals[j]).Ok?) && SignalName(signals[w]) == Err(e);
    assert w == i;
  }

  /** Something handed to `connect`, `<<` or `>>`. */
  datatype Target =
    | PinT(pin: Pin)
    | PartT(part: Part)
    | NetT(net: Net)
    | PortT(port: Port)
    | BundleT(bundle: NetBundle)
    | OtherT

  // ---------------------------------------------------------------------
  // Resolving the targets of Net.connect (pcbdl/base.py:119-132, 596-608, 623)
  // ---------------------------------------------------------------------

  /** The pins a target can resolve to. */
  ghost function Reachable(t: Target): set<Pin> {
    match t
    case PinT(p) => {p}
    case PartT(part) => part.pins.entries.Values
    case _ => {}
  }

  /** A pin's name fits a net name directly or behind the part's prefix. */
  predicate NameFits(p: Pin, prefix: string, netName: string) {
    exists k | 0 <= k < |p.names| :: p.names[k] == netName || prefix + p.names[k] == netName
  }

  /** The first pin, in order, one of whose names fits the net name; ValueError when none does. */
  function PickByNetName(ps: seq<Pin>, prefix: string, netName: string): Result<Pin>
    decreases |ps|
  {
    if ps == [] then Err(ValueError)
    else if NameFits(ps[0], prefix, netName) then Ok(ps[0])
    else PickByNetName(ps[1..], prefix, netName)
  }

  /** The pick succeeds iff some pin fits, and then it is the first pin that fits. */
  lemma {:induction false} PickByNetNameSpec(ps: seq<Pin>, prefix: string, netName: string)
    ensures var r := PickByNetName(ps, prefix, netName);
      (r.Ok? <==> exists i | 0 <= i < |ps| :: NameFits(ps[i], prefix, netName)) &&
      (r.Ok? ==> exists i | 0 <= i < |ps| :: (ps[i] == r.value && NameFits(ps[i], prefix, netName) &&
        forall j | 0 <= j < i :: !NameFits(ps[j], prefix, netName))) &&
      (r.Err? ==> r.error == ValueError)
    decreases |ps|
  {
    if ps != [] && !NameFits(ps[0], prefix, netName) {
      PickByNetNameSpec(ps[1..], prefix, netName);
      var r := PickByNetName(ps[1..], prefix, netName);
      assert forall i | 1 <= i < |ps| :: ps[1..][i - 1] == ps[i];
      if r.Ok? {
        var i :| 0 <= i < |ps[1..]| && ps[1..][i] == r.value && NameFits(ps[1..][i], prefix, netName) &&
          forall j | 0 <= j < i :: !NameFits(ps[1..][j], prefix, netName);
        assert forall j | 1 <= j < i + 1 :: ps[j] == ps[1..][j - 1];
        assert ps[i + 1] == r.value;
      }
    }
  }

  /**
   * `Part.get_stuff_to_connect` for a net: in matching mode the pin whose
   * name fits the net's name (an unnamed net's placeholder fits no pin
   * name); otherwise NotImplementedError.
   */
  function PinForNet(part: Part, netName: Option<string>): Result<Pin> {
    if !part.matchNets then Err(NotImplementedError)
    else if netName.None? then Err(ValueError)
    else PickByNetName(Values(part.pins), part.matchPrefix, netName.value)
  }

  /** One target of `Net.connect`: a pin, a part's pin, or the error it raises. */
  function PinFor(t: Target, netName: Option<string>): Result<Pin> {
    match t
    case PinT(p) => Ok(p)
    case PartT(part) => PinForNet(part, netName)
    case NetT(_) => Err(NotImplementedError)
    case _ => Err(TypeError)
  }

  /** A target resolves only to a pin it owns: itself, or one of the part's pins. */
  lemma PinForReachable(t: Target, netName: Option<string>)
    ensures PinFor(t, netName).Ok? ==> PinFor(t, netName).value in Reachable(t)
  {
    if t.PartT? && t.part.matchNets && netName.Some? {
      var ps := Values(t.part.pins);
      PickByNetNameSpec(ps, t.part.matchPrefix, netName.value);
    }
  }


  /** The pins the targets resolve to, in order, up to the first failure, and that failure. */
  datatype Plan = Plan(pins: seq<Pin>, failure: Option<Error>)

  function PlanOf(ts: seq<Target>, netName: Option<string>): (r: Plan)
    ensures |r.pins| <= |ts|
    decreases |ts|
  {
    if ts == [] then Plan([], None)
    else
      match PinFor(ts[0], netName)
      case Err(e) => Plan([], Some(e))
      case Ok(p) =>
        var r := PlanOf(ts[1..], netName);
        Plan([p] + r.pins, r.failure)
  }

  /**
   * The plan resolves the targets in order: pin `i` is what target `i`
   * resolves to, and it stops either at the end or at the first target
   * that fails, with that target's error.
   */
  lemma {:induction false} PlanOfSpec(ts: seq<Target>, netName: Option<string>)
    ensures var r := PlanOf(ts, netName);
      (forall i | 0 <= i < |r.pins| :: PinFor(ts[i], netName) == Ok(r.pins[i])) &&
      (r.failure.None? ==> |r.pins| == |ts|) &&
      (r.failure.Some? ==> |r.pins| < |ts| && PinFor(ts[|r.pins|], netName) == Err(r.failure.value))
    decreases |ts|
  {
    if ts != [] && PinFor(ts[0], netName).Ok? {
      PlanOfSpec(ts[1..], netName);
      assert forall i | 1 <= i < |ts| :: ts[1..][i - 1] == ts[i];
    }
  }

  /** Every resolved pin is one its target can reach. */
  lemma PlanPinsReachable(ts: seq<Target>, netName: Option<string>, i: nat)
    requires i < |PlanOf(ts, netName).pins|
    ensures PlanOf(ts, netName).pins[i] in Reachable(ts[i])
  {
    PlanOfSpec(ts, netName);
    PinForReachable(ts[i], netName);
  }

  /** Whether each pin's net is set. */
  function NetsSet(ps: seq<Pin>): (r: seq<bool>)
    reads ps
    ensures |r| == |ps| && forall j | 0 <= j < |ps| :: r[j] == (ps[j].net != null)
  {
    seq(|ps|, j requires 0 <= j < |ps| reads ps => ps[j].net != null)
  }

  /** Like NetsSet, with pin `q` counted as connected. */
  function NetsSetExcept(ps: seq<Pin>, q: Pin): (r: seq<bool>)
    reads ps
    ensures |r| == |ps| && forall j | 0 <= j < |ps| :: r[j] == (ps[j].net != null || ps[j] == q)
  {
    seq(|ps|, j requires 0 <= j < |ps| reads ps => ps[j].net != null || ps[j] == q)
  }

  /**
   * The position of the first pin whose net setter raises: one that was
   * already connected, or one met earlier in the same call. `|ps|` when none.
   */
  function FirstConflict(ps: seq<Pin>, wasSet: seq<bool>): (k: nat)
    requires |wasSet| == |ps|
    ensures k <= |ps|
  {
    ConflictFrom(ps, wasSet, 0)
  }

  function ConflictFrom(ps: seq<Pin>, wasSet: seq<bool>, j: nat): (k: nat)
    requires |wasSet| == |ps| && j <= |ps|
    ensures j <= k <= |ps|
    decreases |ps| - j
  {
    if j == |ps| then j
    else if wasSet[j] || ps[j] in ps[..j] then j
    else ConflictFrom(ps, wasSet, j + 1)
  }

  /**
   * No pin before the first conflict was connected beforehand or repeats an
   * earlier one; the pin at the conflict, if any, does one or the other.
   */
  /** A pin counted as already connected is not among the pins before the first conflict. */
  lemma SelfNotRecorded(p: Pin, ps: seq<Pin>, wasSet: seq<bool>)
    requires |wasSet| == |ps| && forall j | 0 <= j < |ps| && ps[j] == p :: wasSet[j]
    ensures p !in ps[..FirstConflict(ps, wasSet)]
  {
    FirstConflictSpec(ps, wasSet);
  }

  lemma FirstConflictSpec(ps: seq<Pin>, wasSet: seq<bool>)
    requires |wasSet| == |ps|
    ensures var k := FirstConflict(ps, wasSet);
      (forall j | 0 <= j < k :: !wasSet[j] && ps[j] !in ps[..j]) &&
      (k < |ps| ==> wasSet[k] || ps[k] in ps[..k])
  {
    ConflictFromSpec(ps, wasSet, 0);
  }

  lemma {:induction false} ConflictFromSpec(ps: seq<Pin>, wasSet: seq<bool>, j: nat)
    requires |wasSet| == |ps| && j <= |ps|
    ensures var k := ConflictFrom(ps, wasSet, j);
      (forall l | j <= l < k :: !wasSet[l] && ps[l] !in ps[..l]) &&
      (k < |ps| ==> wasSet[k] || ps[k] in ps[..k])
    decreases |ps| - j
  {
    if j < |ps| && !(wasSet[j] || ps[j] in ps[..j]) {
      ConflictFromSpec(ps, wasSet, j + 1);
    }
  }

  /** The pins left recorded in the group: up to and including the one whose setter raised. */
  function Recorded(ps: seq<Pin>, k: nat): seq<Pin>
    requires k <= |ps|
  {
    if k < |ps| then ps[..k + 1] else ps
  }

  /** What `connect` ends with: the setter's ValueError, else the resolution failure, else success. */
  function ConnectOutcome(plan: Plan, k: nat): Outcome {
    if k < |plan.pins| then Fail(ValueError)
    else if plan.failure.Some? then Fail(plan.failure.value)
    else Pass
  }

  function Pairs(ps: seq<Pin>, dir: ConnectDirection): (r: seq<(Pin, ConnectDirection)>)
    ensures |r| == |ps| && forall j | 0 <= j < |ps| :: r[j] == (ps[j], dir)
  {
    seq(|ps|, j requires 0 <= j < |ps| => (ps[j], dir))
  }

  lemma PairsAppend(ps: seq<Pin>, p: Pin, dir: ConnectDirection)
    ensures Pairs(ps + [p], dir) == Pairs(ps, dir) + [(p, dir)]
  {
  }

  /** The setter raised at position `i`: that is the first conflict. */
  lemma ConflictAt(ps: seq<Pin>, was: seq<bool>, k: nat, i: nat)
    requires |was| == |ps| && k == FirstConflict(ps, was) && i <= k && i < |ps|
    requires was[i] || ps[i] in ps[..i]
    ensures k == i
  {
    FirstConflictSpec(ps, was);
  }

  /** The setter succeeded at position `i`: the first conflict lies further on. */
  lemma ConflictLater(ps: seq<Pin>, was: seq<bool>, k: nat, i: nat)
    requires |was| == |ps| && k == FirstConflict(ps, was) && i <= k && i < |ps|
    requires !was[i] && ps[i] !in ps[..i]
    ensures i + 1 <= k && ps[..i + 1] == ps[..i] + [ps[i]]
  {
    FirstConflictSpec(ps, was);
  }

  /**
   * The groups after one `connect`: a new group holding `kvs` appended
   * (`None`), or group `gi` extended with `kvs`.
   */
  function Extended(gs: seq<Group>, gi: Option<nat>, kvs: seq<(Pin, ConnectDirection)>): seq<Group>
    requires gi.Some? ==> gi.value < |gs|
  {
    if gi.None? then gs + [ExtendGroup(Empty(), kvs)]
    else gs[gi.value := ExtendGroup(gs[gi.value], kvs)]
  }

  /** A group after the assignments `group[pin] = direction` of `kvs`, in order. */
  function ExtendGroup(g: Group, kvs: seq<(Pin, ConnectDirection)>): Group {
    PutAll(g, kvs)
  }

  /** The pins of each group. */
  function GroupKeys(gs: seq<Group>): (r: seq<seq<Pin>>)
    ensures |r| == |gs| && forall i | 0 <= i < |gs| :: r[i] == gs[i].keys
  {
    seq(|gs|, i requires 0 <= i < |gs| => gs[i].keys)
  }

  /** The targets of a tuple of pins. */
  function PinTargets(ps: seq<Pin>): (ts: seq<Target>)
    ensures |ts| == |ps| && forall i | 0 <= i < |ps| :: ts[i] == PinT(ps[i])
  {
    seq(|ps|, i requires 0 <= i < |ps| => PinT(ps[i]))
  }

  /** Pins as targets resolve to themselves, whatever the net's name. */
  lemma {:induction false} PlanOfPins(ps: seq<Pin>, netName: Option<string>)
    ensures PlanOf(PinTargets(ps), netName) == Plan(ps, None)
    decreases |ps|
  {
    if ps != [] {
      assert PinTargets(ps)[1..] == PinTargets(ps[1..]);
      PlanOfPins(ps[1..], netName);
      assert ps == [ps[0]] + ps[1..];
    }
  }

  // ---------------------------------------------------------------------
  // Net bundles (pcbdl/base.py:611-620, 668-723, 795-802)
  // ---------------------------------------------------------------------

  /** The ports, in order, whose interface is of class `cls`. */
  function PortsOfClass(ps: seq<Port>, cls: InterfaceClass): seq<Port>
    decreases |ps|
  {
    if ps == [] then []
    else (if ps[0].iface.cls == cls then [ps[0]] else []) + PortsOfClass(ps[1..], cls)
  }

  /** The filter keeps exactly the ports of the class. */
  lemma {:induction false} PortsOfClassMembers(ps: seq<Port>, cls: InterfaceClass)
    ensures forall p | p in PortsOfClass(ps, cls) :: p in ps && p.iface.cls == cls
    ensures forall i | 0 <= i < |ps| && ps[i].iface.cls == cls :: ps[i] in PortsOfClass(ps, cls)
    decreases |ps|
  {
    if ps != [] {
      PortsOfClassMembers(ps[1..], cls);
      assert forall i | 1 <= i < |ps| :: ps[i] == ps[1..][i - 1];
    }
  }

  /** Two ports of the class, at different positions, both survive the filter. */
  lemma {:induction false} PortsOfClassTwo(ps: seq<Port>, cls: InterfaceClass, i: nat, j: nat)
    requires i < j < |ps| && ps[i].iface.cls == cls && ps[j].iface.cls == cls
    ensures |PortsOfClass(ps, cls)| >= 2
    decreases |ps|
  {
    var tl := ps[1..];
    if i > 0 {
      PortsOfClassTwo(tl, cls, i - 1, j - 1);
    } else {
      PortsOfClassMembers(tl, cls);
      assert tl[j - 1] == ps[j];
    }
  }

  /** A filter result of two or more comes from two positions holding ports of the class. */
  lemma {:induction false} PortsOfClassPair(ps: seq<Port>, cls: InterfaceClass) returns (i: nat, j: nat)
    requires |PortsOfClass(ps, cls)| >= 2
    ensures i < j < |ps| && ps[i].iface.cls == cls && ps[j].iface.cls == cls
    decreases |ps|
  {
    var tl := ps[1..];
    if ps[0].iface.cls == cls {
      PortsOfClassMembers(tl, cls);
      assert PortsOfClass(ps, cls) == [ps[0]] + PortsOfClass(tl, cls);
      var q := PortsOfClass(tl, cls)[0];
      assert q in PortsOfClass(tl, cls) && q in tl;
      var m :| 0 <= m < |tl| && tl[m] == q;
      i, j := 0, m + 1;
    } else {
      var a, b := PortsOfClassPair(tl, cls);
      i, j := a + 1, b + 1;
    }
  }

  /**
   * `Part.get_stuff_to_connect` for a bundle: in net-name matching mode the
   * bundle has no `name` (AttributeError); otherwise the one port of the
   * bundle's interface class, ValueError for none and for several.
   */
  function UniquePort(part: Part, cls: InterfaceClass): Result<Port> {
    if part.matchNets then Err(AttributeError)
    else
      var candidates := PortsOfClass(Values(part.ports), cls);
      if |candidates| == 1 then Ok(candidates[0]) else Err(ValueError)
  }

  /**
   * A part supplies a port exactly when it is not in net-name matching
   * mode and exactly one of its ports has the class, and then it is that
   * port; otherwise AttributeError in matching mode, ValueError for none
   * and for several.
   */
  lemma UniquePortSpec(part: Part, cls: InterfaceClass)
    ensures var ps := Values(part.ports); var r := UniquePort(part, cls);
      r.Ok? ==> (!part.matchNets && r.value in ps && r.value.iface.cls == cls &&
        forall i, j | 0 <= i < j < |ps| :: !(ps[i].iface.cls == cls && ps[j].iface.cls == cls))
    ensures var ps := Values(part.ports);
      (!part.matchNets && (exists i | 0 <= i < |ps| :: ps[i].iface.cls == cls) &&
        (forall i, j | 0 <= i < j < |ps| :: !(ps[i].iface.cls == cls && ps[j].iface.cls == cls))) ==>
      UniquePort(part, cls).Ok?
    ensures var r := UniquePort(part, cls);
      r.Err? ==> r.error == if part.matchNets then AttributeError else ValueError
  {
    UniquePortFound(part, cls);
    UniquePortExists(part, cls);
  }

  /** A port `UniquePort` answers with is of the interface, and no two ports are. */
  lemma UniquePortFound(part: Part, cls: InterfaceClass)
    ensures var ps := Values(part.ports); var r := UniquePort(part, cls);
      r.Ok? ==> (r.value in ps && r.value.iface.cls == cls &&
        forall i, j | 0 <= i < j < |ps| :: !(ps[i].iface.cls == cls && ps[j].iface.cls == cls))
  {
    var ps := Values(part.ports);
    var c := PortsOfClass(ps, cls);
    PortsOfClassMembers(ps, cls);
    if |c| == 1 && !part.matchNets {
      assert UniquePort(part, cls) == Ok(c[0]) && c[0] in c;
      assert c[0] in ps;
      forall i, j | 0 <= i < j < |ps| && ps[i].iface.cls == cls && ps[j].iface.cls == cls
        ensures false
      {
        PortsOfClassTwo(ps, cls, i, j);
      }
    }
  }

  /** With exactly one port of the interface, `UniquePort` finds it. */
  lemma UniquePortExists(part: Part, cls: InterfaceClass)
    ensures var ps := Values(part.ports);
      (!part.matchNets && (exists i | 0 <= i < |ps| :: ps[i].iface.cls == cls) &&
        (forall i, j | 0 <= i < j < |ps| :: !(ps[i].iface.cls == cls && ps[j].iface.cls == cls))) ==>
      UniquePort(part, cls).Ok?
  {
    var ps := Values(part.ports);
    var c := PortsOfClass(ps, cls);
    PortsOfClassMembers(ps, cls);
    if !part.matchNets && |c| != 1 && exists i | 0 <= i < |ps| :: ps[i].iface.cls == cls {
      var i :| 0 <= i < |ps| && ps[i].iface.cls == cls;
      assert ps[i] in c;
      var a, b := PortsOfClassPair(ps, cls);
    }
  }

  /**
   * The port a target of `NetBundle.connect` stands for, and the check of
   * its interface. `noPort` is what a target that is neither a part nor a
   * port raises.
   */
  function ResolvePort(t: Target, cls: InterfaceClass, noPort: Error): Result<Port> {
    match t
    case PartT(part) => UniquePort(part, cls)
    case PortT(port) => if port.iface.cls != cls then Err(TypeError) else Ok(port)
    case BundleT(_) => Err(NotImplementedError)
    case _ => Err(noPort)
  }

  /**
   * As written, the interface check reads `port.interface` before testing
   * `port is None`, so a target with no port (a pin, a net) raises
   * AttributeError.
   */
  function PortForAsWritten(t: Target, cls: InterfaceClass): Result<Port> {
    ResolvePort(t, cls, AttributeError)
  }

  /** With the `None` test first, such a target raises the intended TypeError. */
  function PortFor(t: Target, cls: InterfaceClass): Result<Port> {
    ResolvePort(t, cls, TypeError)
  }

  /** Connecting a bundle to a pin: AttributeError as written, TypeError as intended. */
  lemma PinTargetNoPort(p: Pin, cls: InterfaceClass)
    ensures PortForAsWritten(PinT(p), cls) == Err(AttributeError)
    ensures PortFor(PinT(p), cls) == Err(TypeError)
  {
  }

  /**
   * A resolved port always has the bundle's class; a port of another class
   * is a TypeError; the two versions differ only on targets with no port.
   */
  lemma PortForSpec(t: Target, cls: InterfaceClass)
    ensures PortFor(t, cls).Ok? ==> PortFor(t, cls).value.iface.cls == cls
    ensures t.PortT? ==> (PortFor(t, cls).Ok? <==> t.port.iface.cls == cls)
    ensures t.PortT? && t.port.iface.cls != cls ==> PortFor(t, cls) == Err(TypeError)
    ensures t.PartT? || t.PortT? || t.BundleT? ==> PortForAsWritten(t, cls) == PortFor(t, cls)
    ensures !(t.PartT? || t.PortT? || t.BundleT?) ==> PortFor(t, cls) == Err(TypeError)
  {
    if t.PartT? {
      UniquePortSpec(t.part, cls);
    }
  }

  /**
   * One signal of the bundle's loop: its main name, its net `self[name]`
   * (KeyError when missing) and the port's pin `port.pins[name]`.
   */
  function SignalStep(sig: Signal, b: NetBundle, port: Port): Result<(Net, Pin)> {
    match SignalName(sig)
    case Err(e) => Err(e)
    case Ok(n) =>
      if n !in b.nets.entries then Err(KeyError)
      else
        match Lookup(port.pins, NameKey(n), (p: Pin) => p.names)
        case Err(e) => Err(e)
        case Ok(p) => Ok((b.nets.entries[n], p))
  }

  /** The net and the pin of each signal in order, up to the first signal whose look-up fails. */
  datatype Steps = Steps(nets: seq<Net>, pins: seq<Pin>, failure: Option<Error>)

  function StepsOf(signals: seq<Signal>, b: NetBundle, port: Port): (r: Steps)
    ensures |r.nets| == |r.pins| <= |signals|
    decreases |signals|
  {
    if signals == [] then Steps([], [], None)
    else
      match SignalStep(signals[0], b, port)
      case Err(e) => Steps([], [], Some(e))
      case Ok(st) =>
        var r := StepsOf(signals[1..], b, port);
        Steps([st.0] + r.nets, [st.1] + r.pins, r.failure)
  }

  /** Step `i` is signal `i`'s look-up; the steps stop at the end or at the first failing look-up. */
  lemma {:induction false} StepsOfSpec(signals: seq<Signal>, b: NetBundle, port: Port)
    ensures var r := StepsOf(signals, b, port);
      (forall i | 0 <= i < |r.pins| :: SignalStep(signals[i], b, port) == Ok((r.nets[i], r.pins[i]))) &&
      (r.failure.None? ==> |r.pins| == |signals|) &&
      (r.failure.Some? ==> |r.pins| < |signals| && SignalStep(signals[|r.pins|], b, port) == Err(r.failure.value))
    decreases |signals|
  {
    if signals != [] && SignalStep(signals[0], b, port).Ok? {
      StepsOfSpec(signals[1..], b, port);
      assert forall i | 1 <= i < |signals| :: signals[1..][i - 1] == signals[i];
    }
  }

  /** Every step's net is one of the bundle's nets, so a base net when the bundle is valid. */
  lemma StepsOfBase(signals: seq<Signal>, b: NetBundle, port: Port, r: Steps)
    requires b.Valid() && r == StepsOf(signals, b, port)
    ensures forall i | 0 <= i < |r.nets| :: r.nets[i] in b.nets.entries.Values
    ensures forall i | 0 <= i < |r.nets| :: r.nets[i].parent == null
  {
    StepsOfSpec(signals, b, port);
  }

  /**
   * Signals with different main names reach different nets of a valid
   * bundle, so each connected signal's net gets a group of its own
   * (`AddedDistinct`).
   */
  lemma StepsDistinct(signals: seq<Signal>, b: NetBundle, port: Port)
    requires b.Valid()
    requires forall a, c | 0 <= a < c < |signals| :: SignalName(signals[a]) != SignalName(signals[c])
    ensures var r := StepsOf(signals, b, port);
      forall a, c | 0 <= a < c < |r.nets| :: r.nets[a] != r.nets[c]
  {
    StepsOfSpec(signals, b, port);
  }

  /** What `NetBundle.connect` may change besides the bundle: what each of its targets may. */
  function AllTouched(ts: seq<Target>, b: NetBundle): set<object> {
    set i, o | 0 <= i < |ts| && o in Touched(ts[i], b) :: o
  }

  /** What one target may change is part of what the whole call may. */
  lemma TouchedWithin(ts: seq<Target>, b: NetBundle, i: nat)
    requires i < |ts|
    ensures Touched(ts[i], b) <= AllTouched(ts, b)
    ensures PortForAsWritten(ts[i], b.cls).Ok? ==> PortTouched(b, PortForAsWritten(ts[i], b.cls).value) <= AllTouched(ts, b)
  {
  }

  /** Recording the next target's port extends the recorded ports of the targets before it. */
  lemma TargetPortsNext(c0: seq<Port>, c: seq<Port>, ts: seq<Target>, cls: InterfaceClass, n: nat)
    requires n < |ts| && forall i | 0 <= i <= n :: PortForAsWritten(ts[i], cls).Ok?
    requires c == c0 + TargetPorts(ts, cls, n)
    ensures c + [PortForAsWritten(ts[n], cls).value] == c0 + TargetPorts(ts, cls, n + 1)
  {
    assert TargetPorts(ts, cls, n + 1) == TargetPorts(ts, cls, n) + [PortForAsWritten(ts[n], cls).value];
  }

  /** Connecting one port changes no other port. */
  lemma PortNotTouched(b: NetBundle, port: Port, q: Port)
    requires q != port
    ensures q !in PortTouched(b, port)
  {
  }

  /** The ports the first `n` targets resolve to, in order. */
  function TargetPorts(ts: seq<Target>, cls: InterfaceClass, n: nat): (r: seq<Port>)
    requires n <= |ts| && forall i | 0 <= i < n :: PortForAsWritten(ts[i], cls).Ok?
    ensures |r| == n && forall i | 0 <= i < n :: r[i] == PortForAsWritten(ts[i], cls).value
  {
    seq(n, i requires 0 <= i < n && PortForAsWritten(ts[i], cls).Ok? => PortForAsWritten(ts[i], cls).value)
  }

  /** What a target of `NetBundle.connect` may change besides the bundle: its port, the step nets and the port's pins. */
  function Touched(t: Target, b: NetBundle): set<object> {
    match PortForAsWritten(t, b.cls)
    case Err(_) => {}
    case Ok(port) => PortTouched(b, port)
  }

  function PortTouched(b: NetBundle, port: Port): set<object> {
    var steps := StepsOf(b.cls.signals, b, port);
    {port} + (set j | 0 <= j < |steps.nets| :: steps.nets[j]) + (set j | 0 <= j < |steps.pins| :: steps.pins[j])
  }

  /** The signal loop's outcome, then the look-up failure that stopped the steps, is the outcome of the plan. */
  lemma SignalsOutcome(netsOut: Outcome, signalsOut: Outcome, plan: Plan, k: nat)
    requires netsOut == if k < |plan.pins| then Fail(ValueError) else Pass
    requires signalsOut == if netsOut == Pass && plan.failure.Some? then Fail(plan.failure.value) else netsOut
    ensures signalsOut == ConnectOutcome(plan, k)
  {
  }

  /** How many steps leave their pin recorded, when the `k`-th pin is the first whose net setter raises. */
  function Upto(k: nat, n: nat): nat {
    if k < n then k + 1 else n
  }

  /** The group a one-pin `connect` appends: the pin, with no direction. */
  function Single(p: Pin): Group {
    OMap([p], map[p := DirUnknown])
  }

  /** It is what extending an empty group by the one pin gives. */
  lemma SingleExtends(p: Pin)
    ensures ExtendGroup(Empty(), Pairs([p], DirUnknown)) == Single(p)
  {
    var e: Group := Empty();
    assert Pairs([p], DirUnknown) == [(p, DirUnknown)];
    assert PutAll(e, [(p, DirUnknown)]) == PutAll(Put(e, p, DirUnknown), []);
  }

  /** A net that none of the first `m` steps names gets no group from them. */
  lemma {:induction false} AddedElsewhere(nets: seq<Net>, pins: seq<Pin>, m: nat, n: Net)
    requires m <= |nets| && m <= |pins| && forall a | 0 <= a < m :: nets[a] != n
    ensures Added(nets, pins, m, n) == []
  {
    if m > 0 {
      AddedElsewhere(nets, pins, m - 1, n);
    }
  }

  /**
   * With a different net at every step, each of the first `m` step nets
   * gets exactly one group: its own step's pin alone.
   */
  lemma {:induction false} AddedDistinct(nets: seq<Net>, pins: seq<Pin>, m: nat, j: nat)
    requires m <= |nets| && m <= |pins| && j < m
    requires forall a, b | 0 <= a < b < |nets| :: nets[a] != nets[b]
    ensures Added(nets, pins, m, nets[j]) == [Single(pins[j])]
  {
    var n := nets[j];
    assert Added(nets, pins, m, n) == Added(nets, pins, m - 1, n) + (if nets[m - 1] == n then [Single(pins[m - 1])] else []);
    if j < m - 1 {
      assert nets[j] != nets[m - 1];
      AddedDistinct(nets, pins, m - 1, j);
    } else {
      AddedElsewhere(nets, pins, j, n);
      assert [] + [Single(pins[j])] == [Single(pins[j])];
    }
  }

  /** The groups the first `m` steps append to net `n`, in order. */
  function Added(nets: seq<Net>, pins: seq<Pin>, m: nat, n: Net): seq<Group>
    requires m <= |nets| && m <= |pins|
  {
    if m == 0 then []
    else Added(nets, pins, m - 1, n) + (if nets[m - 1] == n then [Single(pins[m - 1])] else [])
  }

  /**
   * The bookkeeping after the signals of one target are connected: when
   * all went well, the bundle is set on the port (ValueError if it already
   * had one) and the port is recorded; otherwise nothing more happens.
   */
  ghost predicate ConnectsPort(before: seq<Port>, after: seq<Port>, port: Port, was: NetBundle?, out: Outcome, steps: Steps, k: nat, b: NetBundle)
    reads port
  {
    var signals := ConnectOutcome(Plan(steps.pins, steps.failure), k);
    if signals.Fail? then out == signals && after == before && port.netBundle == was
    else if was == null then out == Pass && port.netBundle == b && after == before + [port]
    else out == Fail(ValueError) && port.netBundle == was && after == before
  }

  /**
   * What connecting one port to a bundle did, against the state before: the
   * signal loop stopped at the first pin whose net setter raises (`k`), the
   * step nets gained their one-pin groups and the pins before `k` took their
   * nets, and the port was recorded exactly when every signal went through.
   */
  ghost predicate PortConnected(b: NetBundle, port: Port, out: Outcome, k: nat, s: PortBefore)
    reads b, port, PortTouched(b, port)
  {
    var steps := StepsOf(b.cls.signals, b, port);
    |s.was| == |steps.pins| && |s.groups| == |s.names| == |steps.nets| && |s.nets| == |steps.pins| &&
    k == FirstConflict(steps.pins, s.was) && k <= |steps.pins| &&
    ConnectsPort(s.connections, b.connections, port, s.bundle, out, steps, k, b) &&
    SignalsConnectedFrom(steps.nets, steps.pins, k, s.groups, s.names, s.nets)
  }

  /**
   * What connecting one port starts from: the recorded ports, the port's
   * bundle, which step pins have a net, and the step nets' groups and names
   * and the step pins' nets.
   */
  datatype PortBefore = PortBefore(connections: seq<Port>, bundle: NetBundle?, was: seq<bool>,
    groups: seq<seq<Group>>, names: seq<Option<string>>, nets: seq<Net?>)

  ghost function Before(b: NetBundle, port: Port): PortBefore
    reads b, port, PortTouched(b, port)
  {
    var steps := StepsOf(b.cls.signals, b, port);
    PortBefore(b.connections, port.netBundle, NetsSet(steps.pins), NetGroups(steps.nets), NetNames(steps.nets), PinNets(steps.pins))
  }

  /** `net.connect(pin)` on a base net: a new group with just the pin; ValueError if the pin already has a net. */
  method ConnectPin(n: Net, p: Pin) returns (o: Outcome)
    requires n.parent == null
    modifies n, p
    ensures n.groups == old(n.groups) + [Single(p)] && n.ownName == old(n.ownName)
    ensures old(p.net) == null ==> o == Pass && p.net == n
    ensures old(p.net) != null ==> o == Fail(ValueError) && p.net == old(p.net)
  {
    PlanOfPins([p], n.Name());
    ghost var plan, k;
    o, plan, k := n.Connect(PinTargets([p]), DirUnknown);
    FirstConflictSpec([p], old(NetsSet([p])));
    assert Recorded([p], k) == [p];
    SingleExtends(p);
  }


  /**
   * The signal loop of `NetBundle.connect` over looked-up nets and pins:
   * each net gets a one-pin group and its pin gets the net, until a pin's
   * net setter raises; that pin's group stays recorded.
   */
  method ConnectSignals(nets: seq<Net>, pins: seq<Pin>, ghost was: seq<bool>) returns (out: Outcome, ghost k: nat)
    requires |nets| == |pins| && was == NetsSet(pins)
    requires forall j | 0 <= j < |nets| :: nets[j].parent == null
    modifies nets, pins
    ensures k == FirstConflict(pins, was)
    ensures out == if k < |pins| then Fail(ValueError) else Pass
    ensures SignalsConnected(nets, pins, k)
  {
    k := FirstConflict(pins, was);
    ghost var groups0 := seq(|nets|, j requires 0 <= j < |nets| reads nets => nets[j].groups);
    ghost var names0 := seq(|nets|, j requires 0 <= j < |nets| reads nets => nets[j].ownName);
    ghost var nets0 := seq(|pins|, j requires 0 <= j < |pins| reads pins => pins[j].net);
    out := Pass;
    var i := 0;
    while i < |pins|
      invariant i <= k && out == Pass
      invariant Progress(nets, pins, i, i, groups0, names0, nets0)
    {
      var o := ConnectSignalAt(nets, pins, i, was, k, groups0, names0, nets0);
      if o.Fail? {
        out := Fail(ValueError);
        break;
      }
      i := i + 1;
    }
    assert Upto(k, |pins|) == if out == Pass then i else i + 1;
  }

  /**
   * What the signal loop did, when the `k`-th pin is the first whose net
   * setter raises: every step net kept its name and gained the groups
   * `Added` gives, the first `k` pins hold their step's net, and every
   * other pin kept its net.
   */
  twostate predicate SignalsConnected(nets: seq<Net>, pins: seq<Pin>, k: nat)
    requires |nets| == |pins| && k <= |pins|
    reads nets, pins
  {
    SignalsConnectedFrom(nets, pins, k, old(NetGroups(nets)), old(NetNames(nets)), old(PinNets(pins)))
  }

  /** SignalsConnected against given starting groups, names and pin nets. */
  ghost predicate SignalsConnectedFrom(nets: seq<Net>, pins: seq<Pin>, k: nat,
    groups0: seq<seq<Group>>, names0: seq<Option<string>>, nets0: seq<Net?>)
    requires |nets| == |pins| == |groups0| == |names0| == |nets0| && k <= |pins|
    reads nets, pins
  {
    (forall j | 0 <= j < |nets| :: nets[j].ownName == names0[j] &&
      nets[j].groups == groups0[j] + Added(nets, pins, Upto(k, |pins|), nets[j])) &&
    (forall j | 0 <= j < k :: pins[j].net == nets[j]) &&
    (forall j | 0 <= j < |pins| && pins[j] !in pins[..k] :: pins[j].net == nets0[j])
  }

  /**
   * The signal loop after `gi` groups were added and `pi` pins were given
   * their nets, against the groups, names and pin nets it started from.
   */
  ghost predicate Progress(nets: seq<Net>, pins: seq<Pin>, gi: nat, pi: nat,
    groups0: seq<seq<Group>>, names0: seq<Option<string>>, nets0: seq<Net?>)
    requires |nets| == |pins| == |groups0| == |names0| == |nets0| && gi <= |pins| && pi <= |pins|
    reads nets, pins
  {
    GroupsAt(nets, pins, gi, NetGroups(nets), NetNames(nets), groups0, names0) &&
    PinsAt(pins, nets, pi, PinNets(pins), nets0)
  }

  /** Each net's groups, in the current state. */
  function NetGroups(nets: seq<Net>): (r: seq<seq<Group>>)
    reads nets
    ensures |r| == |nets| && forall j | 0 <= j < |nets| :: r[j] == nets[j].groups
  {
    seq(|nets|, j requires 0 <= j < |nets| reads nets => nets[j].groups)
  }

  /** Each net's own name, in the current state. */
  function NetNames(nets: seq<Net>): (r: seq<Option<string>>)
    reads nets
    ensures |r| == |nets| && forall j | 0 <= j < |nets| :: r[j] == nets[j].ownName
  {
    seq(|nets|, j requires 0 <= j < |nets| reads nets => nets[j].ownName)
  }

  /** Each pin's net, in the current state. */
  function PinNets(pins: seq<Pin>): (r: seq<Net?>)
    reads pins
    ensures |r| == |pins| && forall j | 0 <= j < |pins| :: r[j] == pins[j].net
    ensures SamePinSameNet(pins, r)
  {
    seq(|pins|, j requires 0 <= j < |pins| reads pins => pins[j].net)
  }

  /** Every net holds the groups it started with plus the pins of the first `gi` steps that name it. */
  predicate GroupsAt(nets: seq<Net>, pins: seq<Pin>, gi: nat, groups: seq<seq<Group>>, names: seq<Option<string>>,
    groups0: seq<seq<Group>>, names0: seq<Option<string>>)
    requires |nets| == |pins| == |groups| == |names| == |groups0| == |names0| && gi <= |pins|
  {
    forall j | 0 <= j < |nets| :: groups[j] == groups0[j] + Added(nets, pins, gi, nets[j]) && names[j] == names0[j]
  }

  /** Two positions holding the same pin hold the same net. */
  predicate SamePinSameNet(pins: seq<Pin>, cur: seq<Net?>)
    requires |pins| == |cur|
  {
    forall a, b | 0 <= a < |pins| && 0 <= b < |pins| && pins[a] == pins[b] :: cur[a] == cur[b]
  }

  /** The first `pi` pins hold their step's net; every pin not among them holds the net it started with. */
  predicate PinsAt(pins: seq<Pin>, nets: seq<Net>, pi: nat, cur: seq<Net?>, nets0: seq<Net?>)
    requires |nets| == |pins| == |cur| == |nets0| && pi <= |pins|
  {
    (forall j | 0 <= j < pi :: cur[j] == nets[j]) &&
    (forall j | 0 <= j < |pins| && pins[j] !in pins[..pi] :: cur[j] == nets0[j])
  }

  /** Connecting step `i` appends the step's one-pin group to its net and nothing to the others. */
  lemma GroupsAdvance(nets: seq<Net>, pins: seq<Pin>, i: nat, before: seq<seq<Group>>, after: seq<seq<Group>>,
    names: seq<Option<string>>, groups0: seq<seq<Group>>, names0: seq<Option<string>>)
    requires |nets| == |pins| == |before| == |after| == |names| == |groups0| == |names0| && i < |pins|
    requires GroupsAt(nets, pins, i, before, names, groups0, names0)
    requires forall j | 0 <= j < |nets| :: after[j] == before[j] + (if nets[j] == nets[i] then [Single(pins[i])] else [])
    ensures GroupsAt(nets, pins, i + 1, after, names, groups0, names0)
  {
  }

  /**
   * The pin of step `i` either had no net and now holds the step's net
   * (the loop goes on), or already had one, kept it, and is the first
   * conflict (the loop stops).
   */
  lemma PinsAdvance(pins: seq<Pin>, nets: seq<Net>, i: nat, before: seq<Net?>, after: seq<Net?>,
    nets0: seq<Net?>, was: seq<bool>, k: nat)
    requires |nets| == |pins| == |before| == |after| == |nets0| == |was| && i < |pins|
    requires k == FirstConflict(pins, was) && i <= k
    requires forall j | 0 <= j < |pins| :: was[j] == (nets0[j] != null)
    requires PinsAt(pins, nets, i, before, nets0)
    requires SamePinSameNet(pins, before) && SamePinSameNet(pins, after)
    requires forall j | 0 <= j < |pins| && pins[j] != pins[i] :: after[j] == before[j]
    requires before[i] == null ==> after[i] == nets[i]
    requires before[i] != null ==> after[i] == before[i]
    ensures before[i] != null ==> k == i && PinsAt(pins, nets, i, after, nets0)
    ensures before[i] == null ==> i + 1 <= k && PinsAt(pins, nets, i + 1, after, nets0)
  {
    if pins[i] in pins[..i] {
      var j :| 0 <= j < i && pins[..i][j] == pins[i];
      assert pins[j] == pins[i] && before[i] != null;
      ConflictAt(pins, was, k, i);
    } else if before[i] != null {
      ConflictAt(pins, was, k, i);
      forall j | 0 <= j < i
        ensures after[j] == nets[j]
      {
        assert pins[..i][j] == pins[j] != pins[i];
      }
    } else {
      ConflictLater(pins, was, k, i);
      forall j | 0 <= j < |pins| && pins[j] !in pins[..i + 1]
        ensures after[j] == nets0[j]
      {
        assert pins[j] != pins[i] && pins[j] !in pins[..i];
      }
      forall j | 0 <= j < i
        ensures after[j] == nets[j]
      {
        assert pins[..i][j] == pins[j] != pins[i];
      }
    }
  }

  /**
   * Connect the pin of step `i` to the net of step `i`: the net gains the
   * pin's group, and the pin gets the net unless it already had one.
   */
  method ConnectStep(nets: seq<Net>, pins: seq<Pin>, i: nat) returns (o: Outcome)
    requires |nets| == |pins| && i < |pins| && nets[i].parent == null
    modifies nets[i], pins[i]
    ensures forall j | 0 <= j < |nets| :: (nets[j].ownName == old(nets[j].ownName) &&
      nets[j].groups == old(nets[j].groups) + (if nets[j] == nets[i] then [Single(pins[i])] else []))
    ensures forall j | 0 <= j < |pins| && pins[j] != pins[i] :: pins[j].net == old(pins[j].net)
    ensures old(pins[i].net) == null ==> o == Pass && pins[i].net == nets[i]
    ensures old(pins[i].net) != null ==> o == Fail(ValueError) && pins[i].net == old(pins[i].net)
  {
    var net, pin := nets[i], pins[i];
    label before:
    o := ConnectPin(net, pin);
    forall j | 0 <= j < |nets|
      ensures nets[j].ownName == old@before(nets[j].ownName) &&
        nets[j].groups == old@before(nets[j].groups) + (if nets[j] == net then [Single(pin)] else [])
    {
      if nets[j] != net {
        assert nets[j].groups == old@before(nets[j].groups);
      }
    }
  }

  /** One turn of the signal loop: connect step `i`, stopping if its pin's net setter raises. */
  method ConnectSignalAt(nets: seq<Net>, pins: seq<Pin>, i: nat, ghost was: seq<bool>, ghost k: nat,
    ghost groups0: seq<seq<Group>>, ghost names0: seq<Option<string>>, ghost nets0: seq<Net?>)
    returns (o: Outcome)
    requires |nets| == |pins| == |groups0| == |names0| == |nets0| == |was| && i < |pins|
    requires k == FirstConflict(pins, was) && i <= k
    requires forall j | 0 <= j < |pins| :: was[j] == (nets0[j] != null)
    requires nets[i].parent == null
    requires Progress(nets, pins, i, i, groups0, names0, nets0)
    modifies nets[i], pins[i]
    ensures o.Fail? ==> o == Fail(ValueError) && k == i && Progress(nets, pins, i + 1, i, groups0, names0, nets0)
    ensures o.Pass? ==> i + 1 <= k && Progress(nets, pins, i + 1, i + 1, groups0, names0, nets0)
  {
    ghost var g0, n0, p0 := NetGroups(nets), NetNames(nets), PinNets(pins);
    o := ConnectStep(nets, pins, i);
    ghost var g1, n1, p1 := NetGroups(nets), NetNames(nets), PinNets(pins);
    assert n1 == n0;
    GroupsAdvance(nets, pins, i, g0, g1, n0, groups0, names0);
    PinsAdvance(pins, nets, i, p0, p1, nets0, was, k);
  }
}
