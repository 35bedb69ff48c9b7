// How `<<` and `>>` group the pins of a net: the grouping that the
// connection engine's docstrings describe (pcbdl/base.py:112-118, 139-149,
// 205-210), stated over the model of that engine.
module Grouping {
  import opened Core
  import opened OrderedMaps
  import opened Schematic

  /** `connections` is `grouped_connections` flattened, group after group. */
  lemma ConnectionsFlatten(n: Net, i: nat, j: nat)
    requires i < |n.Grouped()| && j < |n.Grouped()[i]|
    ensures n.Grouped()[i][j] in n.Connections()
  {
    FlattenMembers(n.Grouped(), n.Grouped()[i][j]);
  }

  /** Pins none of which is connected, none repeated: no conflict, all recorded. */
  lemma FreshPinsAttach(ps: seq<Pin>, was: seq<bool>)
    requires |was| == |ps| && NoDup(ps)
    requires forall j | 0 <= j < |ps| :: !was[j]
    ensures FirstConflict(ps, was) == |ps| && Recorded(ps, |ps|) == ps[..|ps|] == ps
  {
    FirstConflictSpec(ps, was);
  }

  /**
   * `net << (a, b)` and then, separately, `net << c` on a fresh named net:
   * two groups, `(a, b)` and `(c,)`. The pins hold the net itself, which
   * is what `_shift` connects them to.
   */
  method SeparateShifts(a: Pin, b: Pin, c: Pin) returns (net: Net)
    requires a.net == null && b.net == null && c.net == null
    requires a != b && b != c && a != c
    modifies a, b, c
    ensures fresh(net) && net.Grouped() == [[a, b], [c]]
    ensures a.net == net && b.net == net && c.net == net
  {
    net := new Net(Some("SIG"));
    var r1, r2;
    r1 := ShiftFreshPins(net, [a, b]);
    GroupOfTwo(a, b, DirIn);
    r2 := ShiftFreshPins(net, [c]);
    GroupOfOne(c, DirIn);
  }

  /**
   * `net << (ps...)` where no pin is connected yet and none repeats: the
   * shift succeeds, the pins are recorded in order (in a new group on a
   * base net, in the view's group on a view), each pin now holds `net`,
   * and the answer is a fresh view of the new group, or the view itself.
   */
  method ShiftFreshPins(net: Net, ps: seq<Pin>) returns (view: Net)
    requires net.Valid() && NoDup(ps)
    requires forall j | 0 <= j < |ps| :: ps[j].net == null
    modifies net.Base(), ps
    ensures net.Valid() && net.Base().ownName == old(net.Base().ownName)
    ensures net.Base().groups == Extended(old(net.Base().groups), net.Slot(), Pairs(ps, DirIn))
    ensures forall p | p in ps :: p.net == net
    ensures net.parent == null ==> fresh(view) && view.parent == net && view.group == |net.groups| - 1 && view.Valid()
    ensures net.parent != null ==> view == net
  {
    PlanOfPins(ps, net.Name());
    var r;
    ghost var plan, k;
    r, plan, k := net.Shift(DirIn, PinTargets(ps));
    FreshPinsAttach(ps, old(NetsSet(ps)));
    view := r.value;
  }

  /**
   * `net << a << b`: the second shift runs on the view the first one
   * answered with, so both pins land in one group; the chain answers with
   * that same view, whose name is the net's. `a` holds the net, `b` the view.
   */
  method ChainedShifts(a: Pin, b: Pin) returns (net: Net, view: Net)
    requires a.net == null && b.net == null && a != b
    modifies a, b
    ensures fresh(net) && net.Grouped() == [[a, b]]
    ensures view.parent == net && view.Name() == net.Name() == Some(Upper("sig"))
    ensures a.net == net && b.net == view
  {
    net := new Net(Some("sig"));
    view := ShiftFreshPins(net, [a]);
    ghost var g0 := ExtendGroup(Empty(), Pairs([a], DirIn));
    assert net.groups == [g0];
    ExtendView(view, b);
    TwoStepGroup(a, b, DirIn);
    assert net.groups == [ExtendGroup(g0, Pairs([b], DirIn))];
  }

  /**
   * `p.connect(q, dir)` on an unconnected pin `p`: reading `p.net` makes a
   * fresh net whose only group is {p: IN}, and the connect extends that
   * group, so the pin's new net has one group {p: IN, q: dir}.
   */
  method ConnectThroughPin(p: Pin, q: Pin, dir: ConnectDirection) returns (out: Outcome)
    requires p.net == null && q.net == null && p != q
    modifies p, q
    ensures out == Pass
    ensures p.net != null && |p.net.groups| == 1 && p.net.Grouped() == [[p, q]]
    ensures p.net.groups[0].entries == map[p := DirIn, q := dir]
    ensures q.net != null && q.net.parent == p.net && q.net.group == 0
  {
    PlanOfPins([q], None);
    ghost var was := NetsSetExcept([q], p);
    assert !was[0];
    ghost var plan, k;
    ghost var holder;
    out, plan, k, holder := p.Connect(PinTargets([q]), dir);
    FreshPinsAttach([q], was);
    assert Recorded(plan.pins, k) == [q];
    assert q in plan.pins[..k];
    PinThenPin(p, q, dir);
    assert p.net.Grouped()[0] == [p, q];
  }

  /** The group {p: IN} extended by another pin `q`: both keys in order, with their directions. */
  lemma PinThenPin(p: Pin, q: Pin, dir: ConnectDirection)
    requires p != q
    ensures ExtendGroup(Put(Empty(), p, DirIn), Pairs([q], dir)).keys == [p, q]
    ensures ExtendGroup(Put(Empty(), p, DirIn), Pairs([q], dir)).entries == map[p := DirIn, q := dir]
  {
    var g0 := Put(Empty(), p, DirIn);
    GroupGrows(g0, q, dir);
    assert Pairs([q], dir) == [] + [(q, dir)];
    PutAllAppend(g0, [], q, dir);
  }

  /** One pin, then another one added to the same group: both, in that order. */
  lemma TwoStepGroup(a: Pin, b: Pin, dir: ConnectDirection)
    requires a != b
    ensures GroupKeys([ExtendGroup(ExtendGroup(Empty(), Pairs([a], dir)), Pairs([b], dir))]) == [[a, b]]
  {
    var g0 := ExtendGroup(Empty(), Pairs([a], dir));
    GroupOfOne(a, dir);
    GroupGrows(g0, b, dir);
    var r := GroupKeys([ExtendGroup(g0, Pairs([b], dir))]);
    assert |r| == 1 && r[0] == [a, b];
  }

  /** `view << p` for an unconnected pin: the view's own group gains `p`, and `p` holds the view. */
  method ExtendView(view: Net, p: Pin)
    requires view.parent != null && view.Valid() && p.net == null
    modifies view.parent, p
    ensures view.parent.groups ==
      old(view.parent.groups)[view.group := ExtendGroup(old(view.parent.groups[view.group]), Pairs([p], DirIn))]
    ensures view.parent.ownName == old(view.parent.ownName) && p.net == view
  {
    var same := ShiftFreshPins(view, [p]);
  }

  /** A group made from one pin. */
  lemma GroupOfOne(p: Pin, dir: ConnectDirection)
    ensures ExtendGroup(Empty(), Pairs([p], dir)).keys == [p]
  {
    assert Pairs([p], dir) == [] + [(p, dir)];
    PutAllAppend(Empty(), [], p, dir);
  }

  /** A group made from two different pins keeps them in order. */
  lemma GroupOfTwo(p: Pin, q: Pin, dir: ConnectDirection)
    requires p != q
    ensures ExtendGroup(Empty(), Pairs([p, q], dir)).keys == [p, q]
  {
    assert Pairs([p, q], dir) == [(p, dir)] + [(q, dir)];
    assert Pairs([p], dir) == [] + [(p, dir)];
    PutAllAppend(Empty(), [], p, dir);
    PutAllAppend(Empty(), [(p, dir)], q, dir);
  }

  /** Extending a group with a new pin appends that pin. */
  lemma GroupGrows(g: Group, p: Pin, dir: ConnectDirection)
    requires p !in g.keys
    ensures ExtendGroup(g, Pairs([p], dir)).keys == g.keys + [p]
  {
    assert Pairs([p], dir) == [] + [(p, dir)];
    PutAllAppend(g, [], p, dir);
  }
}
