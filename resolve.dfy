// Collapsing one group of same-pin fragments into a pin of the part class
// (PinFragment.resolve and PartClassPin.__init__, pcbdl/base.py:298-331).
module Resolution {
  import opened Core
  import opened Fragments

  /** A pin of a part class: its names, its numbers, its type and the name of its well pin. */
  datatype ClassPin = ClassPin(names: seq<string>, numbers: seq<string>, pinType: Arg, well: Arg)

  const TypeKey: string := "type"
  const WellKey: string := "well"

  /**
   * `PartClassPin(names, numbers, *args, **kwargs)`, whose signature is
   * `(names, numbers, type=PinType.UNKNOWN, well=None)`: Python refuses more
   * than two extra positional values, an unknown keyword, and a keyword for
   * a parameter a positional value already filled, each with TypeError.
   */
  function Bind(names: seq<string>, numbers: seq<string>, args: seq<Arg>, kwargs: map<string, Arg>): (r: Result<ClassPin>)
    ensures r.Ok? <==>
      |args| <= 2 && (forall k :: k in kwargs ==> k == TypeKey || k == WellKey) &&
      !(TypeKey in kwargs && |args| >= 1) && !(WellKey in kwargs && |args| >= 2)
    ensures r.Err? ==> r.error == TypeError
    ensures r.Ok? ==> r.value.names == names && r.value.numbers == numbers
    ensures r.Ok? ==> (r.value.pinType ==
      if |args| >= 1 then args[0] else if TypeKey in kwargs then kwargs[TypeKey] else TypeArg(Unknown))
    ensures r.Ok? ==> (r.value.well ==
      if |args| >= 2 then args[1] else if WellKey in kwargs then kwargs[WellKey] else NoneArg)
  {
    if |args| > 2 then Err(TypeError)
    else if exists k :: k in kwargs && k != TypeKey && k != WellKey then Err(TypeError)
    else if TypeKey in kwargs && |args| >= 1 then Err(TypeError)
    else if WellKey in kwargs && |args| >= 2 then Err(TypeError)
    else
      var t := if |args| >= 1 then args[0] else if TypeKey in kwargs then kwargs[TypeKey] else TypeArg(Unknown);
      var w := if |args| >= 2 then args[1] else if WellKey in kwargs then kwargs[WellKey] else NoneArg;
      Ok(ClassPin(names, numbers, t, w))
  }

  // ---------------------------------------------------------------------
  // Names and numbers
  // ---------------------------------------------------------------------

  /** The names of all fragments of a group, in fragment order, repetitions included. */
  function AllNames(fs: seq<PinFragment>): (ns: seq<string>)
    ensures forall n :: n in ns <==> exists j :: 0 <= j < |fs| && n in fs[j].names
    decreases |fs|
  {
    if fs == [] then []
    else
      var ns := fs[0].names + AllNames(fs[1..]);
      assert forall n :: (exists j :: 0 <= j < |fs| && n in fs[j].names) ==>
        n in fs[0].names || exists j :: 0 <= j < |fs[1..]| && n in fs[1..][j].names;
      ns
  }

  /** The numbers of all fragments of a group, concatenated in fragment order. */
  function AllNumbers(fs: seq<PinFragment>): (ns: seq<string>)
    ensures forall n :: n in ns <==> exists j :: 0 <= j < |fs| && n in fs[j].numbers
    decreases |fs|
  {
    if fs == [] then []
    else
      var ns := fs[0].numbers + AllNumbers(fs[1..]);
      assert forall n :: (exists j :: 0 <= j < |fs| && n in fs[j].numbers) ==>
        n in fs[0].numbers || exists j :: 0 <= j < |fs[1..]| && n in fs[1..][j].numbers;
      ns
  }

  // ---------------------------------------------------------------------
  // Positional and keyword arguments: the front wins
  // ---------------------------------------------------------------------

  /** `args[:len(front)] = front`. */
  function SliceAssign(args: seq<Arg>, front: seq<Arg>): (r: seq<Arg>)
    ensures |r| == if |front| <= |args| then |args| else |front|
    ensures forall k :: 0 <= k < |r| ==> r[k] == if k < |front| then front[k] else args[k]
  {
    if |front| <= |args| then front + args[|front|..] else front
  }

  /** The positional values after the loop of resolve, which visits the fragments back to front. */
  function OverlaidArgs(fs: seq<PinFragment>): seq<Arg>
    decreases |fs|
  {
    if fs == [] then [] else SliceAssign(OverlaidArgs(fs[1..]), fs[0].args)
  }

  /** The keyword values after the loop of resolve (`dict.update`, back to front). */
  function OverlaidKwargs(fs: seq<PinFragment>): map<string, Arg>
    decreases |fs|
  {
    if fs == [] then map[] else OverlaidKwargs(fs[1..]) + fs[0].kwargs
  }

  /** The earliest fragment with more than `k` positional values, if any. */
  function SlotOwner(fs: seq<PinFragment>, k: nat): (r: Option<nat>)
    ensures r.Some? ==> r.value < |fs| && |fs[r.value].args| > k
    ensures r.Some? ==> forall j :: 0 <= j < r.value ==> |fs[j].args| <= k
    ensures r.None? ==> forall j :: 0 <= j < |fs| ==> |fs[j].args| <= k
    decreases |fs|
  {
    if fs == [] then None
    else if |fs[0].args| > k then Some(0)
    else match SlotOwner(fs[1..], k)
      case None => None
      case Some(j) => Some(j + 1)
  }

  /** The earliest fragment that sets keyword `key`, if any. */
  function KeyOwner(fs: seq<PinFragment>, key: string): (r: Option<nat>)
    ensures r.Some? ==> r.value < |fs| && key in fs[r.value].kwargs
    ensures r.Some? ==> forall j :: 0 <= j < r.value ==> key !in fs[j].kwargs
    ensures r.None? ==> forall j :: 0 <= j < |fs| ==> key !in fs[j].kwargs
    decreases |fs|
  {
    if fs == [] then None
    else if key in fs[0].kwargs then Some(0)
    else match KeyOwner(fs[1..], key)
      case None => None
      case Some(j) => Some(j + 1)
  }

  /**
   * Positional slot `k` is filled exactly when some fragment has more than
   * `k` positional values, and then by the earliest such fragment.
   */
  lemma {:induction false} OverlaidArgsFrontWins(fs: seq<PinFragment>, k: nat)
    ensures k < |OverlaidArgs(fs)| <==> SlotOwner(fs, k).Some?
    ensures k < |OverlaidArgs(fs)| ==> OverlaidArgs(fs)[k] == fs[SlotOwner(fs, k).value].args[k]
    decreases |fs|
  {
    if fs != [] {
      OverlaidArgsFrontWins(fs[1..], k);
    }
  }

  /**
   * A keyword is set exactly when some fragment sets it, and then to the
   * value the earliest such fragment gives.
   */
  lemma {:induction false} OverlaidKwargsFrontWins(fs: seq<PinFragment>, key: string)
    ensures key in OverlaidKwargs(fs) <==> KeyOwner(fs, key).Some?
    ensures key in OverlaidKwargs(fs) ==> OverlaidKwargs(fs)[key] == fs[KeyOwner(fs, key).value].kwargs[key]
    decreases |fs|
  {
    if fs != [] {
      OverlaidKwargsFrontWins(fs[1..], key);
    }
  }

  // ---------------------------------------------------------------------
  // resolve
  // ---------------------------------------------------------------------

  /** What resolve returns, or the exception PartClassPin raises. */
  function Resolved(fs: seq<PinFragment>): Result<ClassPin> {
    Bind(Dedup(AllNames(fs)), AllNumbers(fs), OverlaidArgs(fs), OverlaidKwargs(fs))
  }

  /** `PinFragment.resolve(fragments)`: the loop over the reversed fragments, then the binding. */
  method Resolve(fs: seq<PinFragment>) returns (r: Result<ClassPin>)
    ensures r == Resolved(fs)
  {
    var names := Dedup(AllNames(fs));
    var numbers := AllNumbers(fs);
    var args: seq<Arg> := [];
    var kwargs: map<string, Arg> := map[];
    var i := |fs|;
    while i > 0
      invariant 0 <= i <= |fs|
      invariant args == OverlaidArgs(fs[i..]) && kwargs == OverlaidKwargs(fs[i..])
    {
      i := i - 1;
      assert fs[i..][1..] == fs[i + 1..];
      args := SliceAssign(args, fs[i].args);
      kwargs := kwargs + fs[i].kwargs;
    }
    assert fs[0..] == fs;
    r := Bind(names, numbers, args, kwargs);
  }

  /**
   * A resolved pin has every name of every fragment, each once, in the order
   * of first appearance, and all the fragments' numbers in fragment order.
   */
  lemma ResolvedNamesNumbers(fs: seq<PinFragment>)
    requires Resolved(fs).Ok?
    ensures forall n :: n in Resolved(fs).value.names <==> n in AllNames(fs)
    ensures forall n :: n in Resolved(fs).value.names <==> exists j :: 0 <= j < |fs| && n in fs[j].names
    ensures NoDup(Resolved(fs).value.names)
    ensures forall i, j :: 0 <= i < j < |Resolved(fs).value.names| ==>
      FirstIndex(AllNames(fs), Resolved(fs).value.names[i]) < FirstIndex(AllNames(fs), Resolved(fs).value.names[j])
    ensures Resolved(fs).value.numbers == AllNumbers(fs)
  {
    DedupSpec(AllNames(fs));
  }

  /** The type and well of a resolved pin come from the earliest fragment giving them. */
  lemma ResolvedTypeAndWell(fs: seq<PinFragment>)
    requires Resolved(fs).Ok?
    ensures Resolved(fs).value.pinType ==
      if SlotOwner(fs, 0).Some? then fs[SlotOwner(fs, 0).value].args[0]
      else if KeyOwner(fs, TypeKey).Some? then fs[KeyOwner(fs, TypeKey).value].kwargs[TypeKey]
      else TypeArg(Unknown)
    ensures Resolved(fs).value.well ==
      if SlotOwner(fs, 1).Some? then fs[SlotOwner(fs, 1).value].args[1]
      else if KeyOwner(fs, WellKey).Some? then fs[KeyOwner(fs, WellKey).value].kwargs[WellKey]
      else NoneArg
  {
    OverlaidArgsFrontWins(fs, 0);
    OverlaidArgsFrontWins(fs, 1);
    OverlaidKwargsFrontWins(fs, TypeKey);
    OverlaidKwargsFrontWins(fs, WellKey);
  }

  /** `[PinFragment.resolve(f) for f in groups]`: the first group that cannot be bound raises. */
  function ResolveAll(groups: seq<seq<PinFragment>>): (r: Result<seq<ClassPin>>)
    ensures r.Ok? <==> forall k :: 0 <= k < |groups| ==> Resolved(groups[k]).Ok?
    ensures r.Ok? ==> (|r.value| == |groups| &&
      forall k :: 0 <= k < |groups| ==> r.value[k] == Resolved(groups[k]).value)
    ensures r.Err? ==> r.error == TypeError
    decreases |groups|
  {
    if groups == [] then Ok([])
    else match Resolved(groups[0])
      case Err(e) => Err(e)
      case Ok(p) =>
        match ResolveAll(groups[1..])
        case Err(e) => Err(e)
        case Ok(ps) =>
          assert forall k :: 1 <= k < |groups| ==> groups[k] == groups[1..][k - 1];
          Ok([p] + ps)
  }

  /** No name belongs to two different pins of the class. */
  ghost predicate PinNamesDisjoint(pins: seq<ClassPin>) {
    forall i, j, n :: 0 <= i < j < |pins| && n in pins[i].names ==> n !in pins[j].names
  }

  /**
   * The pins resolved from the groups of gather_fragments never share a name:
   * any name of a pin is found among the names of exactly that pin.
   */
  lemma GatheredPinsDisjoint(fs: seq<PinFragment>)
    requires ResolveAll(Gather(fs)).Ok?
    ensures PinNamesDisjoint(ResolveAll(Gather(fs)).value)
  {
    var gs := Gather(fs);
    var pins := ResolveAll(gs).value;
    forall i, j, n | 0 <= i < j < |pins| && n in pins[i].names ensures n !in pins[j].names {
      ResolvedNamesNumbers(gs[i]);
      ResolvedNamesNumbers(gs[j]);
      var a :| 0 <= a < |gs[i]| && n in gs[i][a].names;
      if n in pins[j].names {
        var b :| 0 <= b < |gs[j]| && n in gs[j][b].names;
        GatherNamesDisjoint(fs, i, j, gs[i][a], gs[j][b], n);
      }
    }
  }

  /** `[PinFragment.resolve(f) for f in groups]`: the first group that does not bind stops with TypeError. */
  method ResolveGroups(groups: seq<seq<PinFragment>>) returns (r: Result<seq<ClassPin>>)
    ensures r == ResolveAll(groups)
  {
    var pins: seq<ClassPin> := [];
    var i := 0;
    while i < |groups|
      invariant i <= |groups| && |pins| == i
      invariant forall k | 0 <= k < i :: Resolved(groups[k]).Ok? && pins[k] == Resolved(groups[k]).value
    {
      var p := Resolve(groups[i]);
      if p.Err? {
        ResolveAllFails(groups, i);
        return Err(TypeError);
      }
      pins := pins + [p.value];
      i := i + 1;
    }
    ResolveAllOk(groups, pins);
    r := Ok(pins);
  }

  lemma ResolveAllFails(groups: seq<seq<PinFragment>>, i: nat)
    requires i < |groups| && Resolved(groups[i]).Err?
    ensures ResolveAll(groups) == Err(TypeError)
  {
  }

  lemma ResolveAllOk(groups: seq<seq<PinFragment>>, pins: seq<ClassPin>)
    requires |pins| == |groups|
    requires forall k | 0 <= k < |groups| :: Resolved(groups[k]).Ok? && pins[k] == Resolved(groups[k]).value
    ensures ResolveAll(groups) == Ok(pins)
  {
    assert ResolveAll(groups).value == pins;
  }
}
