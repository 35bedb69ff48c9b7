// Pin declarations as a part class writes them (PinFragment in
// pcbdl/base.py:225-296): building a fragment, the "same pin" relation, the
// in-place normalisation of shorthand entries of a PINS list, and the
// grouping of the fragments of all layers of a part's class hierarchy into
// one group per physical pin.
module Fragments {
  import opened Core

  /** A value given to a declaration besides its names and numbers (a pin type, a well pin name, None). */
  datatype Arg = TypeArg(pinType: PinType) | NameArg(name: string) | NoneArg

  /** One declaration of (part of) a pin, with its extra positional and keyword arguments. */
  datatype PinFragment = PinFragment(names: seq<string>, numbers: seq<string>, args: seq<Arg>, kwargs: map<string, Arg>)

  /** The `names` parameter: one string, or a tuple of them. */
  datatype NamesParam = OneName(name: string) | NameTuple(names: seq<string>)

  /** The `number` parameter: absent, one string, or a tuple of them. */
  datatype NumberParam = NoNumber | OneNumber(number: string) | NumberTuple(numbers: seq<string>)

  function ParamNames(p: NamesParam): seq<string> {
    match p
    case OneName(n) => [n]
    case NameTuple(ns) => ns
  }

  function ParamNumbers(p: NumberParam): seq<string> {
    match p
    case NoNumber => []
    case OneNumber(n) => [n]
    case NumberTuple(ns) => ns
  }

  /**
   * `PinFragment(names, number, numbers, *args, **kwargs)`: the names are
   * upper-cased, and `number` is put in front of `numbers`.
   */
  function NewFragment(names: NamesParam, number: NumberParam, numbers: seq<string>,
                       args: seq<Arg>, kwargs: map<string, Arg>): (f: PinFragment)
    ensures |f.names| == |ParamNames(names)|
    ensures forall i :: 0 <= i < |f.names| ==> f.names[i] == Upper(ParamNames(names)[i])
    ensures f.numbers == ParamNumbers(number) + numbers
    ensures f.args == args && f.kwargs == kwargs
  {
    PinFragment(seq(|ParamNames(names)|, i requires 0 <= i < |ParamNames(names)| => Upper(ParamNames(names)[i])),
                ParamNumbers(number) + numbers, args, kwargs)
  }

  /** Every name a fragment is built with is upper case, whatever case it was written in. */
  lemma NewFragmentUpper(names: NamesParam, number: NumberParam, numbers: seq<string>,
                         args: seq<Arg>, kwargs: map<string, Arg>)
    ensures forall i :: 0 <= i < |NewFragment(names, number, numbers, args, kwargs).names| ==>
      IsUpper(NewFragment(names, number, numbers, args, kwargs).names[i])
  {
    var f := NewFragment(names, number, numbers, args, kwargs);
    forall i | 0 <= i < |f.names| ensures IsUpper(f.names[i]) {
      UpperIdempotent(ParamNames(names)[i]);
    }
  }

  /** `f == g`: the two fragments describe the same pin when they have a name in common. */
  predicate SameAs(f: PinFragment, g: PinFragment) {
    exists i | 0 <= i < |f.names| :: f.names[i] in g.names
  }

  /** The relation is symmetric, and a fragment is the same as itself exactly when it has a name. */
  lemma SameAsSymmetric(f: PinFragment, g: PinFragment)
    ensures SameAs(f, g) <==> SameAs(g, f)
    ensures SameAs(f, f) <==> f.names != []
  {
    if SameAs(f, g) {
      var i :| 0 <= i < |f.names| && f.names[i] in g.names;
      var j :| 0 <= j < |g.names| && g.names[j] == f.names[i];
      assert g.names[j] in f.names;
    }
    if SameAs(g, f) {
      var i :| 0 <= i < |g.names| && g.names[i] in f.names;
      var j :| 0 <= j < |f.names| && f.names[j] == g.names[i];
      assert f.names[j] in g.names;
    }
    if f.names != [] {
      assert f.names[0] in f.names;
    }
  }

  // ---------------------------------------------------------------------
  // Shorthand entries of a PINS list (pcbdl/base.py:541-545)
  // ---------------------------------------------------------------------

  /** An entry of a PINS list: a bare name, a tuple (taken as names), or a full fragment. */
  datatype PinEntry = NameEntry(name: string) | TupleEntry(names: seq<string>) | FragmentEntry(fragment: PinFragment)

  /** `PinFragment(maybenames)` for a shorthand entry; a fragment stands for itself. */
  function EntryFragment(e: PinEntry): (f: PinFragment)
    ensures e.NameEntry? ==> f.names == [Upper(e.name)] && f.numbers == [] && f.args == [] && f.kwargs == map[]
    ensures e.TupleEntry? ==> |f.names| == |e.names| && f.numbers == [] && f.args == [] && f.kwargs == map[]
    ensures e.TupleEntry? ==> forall i :: 0 <= i < |e.names| ==> f.names[i] == Upper(e.names[i])
    ensures e.FragmentEntry? ==> f == e.fragment
  {
    match e
    case NameEntry(n) => NewFragment(OneName(n), NoNumber, [], [], map[])
    case TupleEntry(ns) => NewFragment(NameTuple(ns), NoNumber, [], [], map[])
    case FragmentEntry(f) => f
  }

  /** A PINS list after every shorthand entry has been replaced by its fragment. */
  function Normalized(entries: seq<PinEntry>): (r: seq<PinEntry>)
    ensures |r| == |entries|
    ensures forall i :: 0 <= i < |r| ==> r[i] == FragmentEntry(EntryFragment(entries[i]))
  {
    seq(|entries|, i requires 0 <= i < |entries| => FragmentEntry(EntryFragment(entries[i])))
  }

  /** The fragments a PINS list declares. */
  function LayerFragments(entries: seq<PinEntry>): (fs: seq<PinFragment>)
    ensures |fs| == |entries|
    ensures forall i :: 0 <= i < |fs| ==> fs[i] == EntryFragment(entries[i])
  {
    seq(|entries|, i requires 0 <= i < |entries| => EntryFragment(entries[i]))
  }

  /**
   * Normalising twice is normalising once, and it does not change which
   * fragments the list declares: a PINS list shared by two layers of a
   * hierarchy may safely be normalised for each of them.
   */
  lemma NormalizedIdempotent(entries: seq<PinEntry>)
    ensures Normalized(Normalized(entries)) == Normalized(entries)
    ensures LayerFragments(Normalized(entries)) == LayerFragments(entries)
    ensures forall i :: 0 <= i < |Normalized(entries)| ==> Normalized(entries)[i].FragmentEntry?
  {
  }

  /** The loop of `_generate_pin_instances` that rewrites one PINS list in place. */
  method NormalizeLayer(a: array<PinEntry>)
    modifies a
    ensures a[..] == Normalized(old(a[..]))
  {
    var i := 0;
    while i < a.Length
      invariant 0 <= i <= a.Length
      invariant forall j :: 0 <= j < i ==> a[j] == FragmentEntry(EntryFragment(old(a[j])))
      invariant forall j :: i <= j < a.Length ==> a[j] == old(a[j])
    {
      if !a[i].FragmentEntry? {
        a[i] := FragmentEntry(EntryFragment(a[i]));
      }
      i := i + 1;
    }
  }

  /**
   * Normalises the PINS list of every layer, most derived first. Two layers
   * may share one list (a class that does not declare PINS inherits its
   * parent's); every list ends up normalised once.
   */
  method NormalizeLayers(layers: seq<array<PinEntry>>)
    modifies set j | 0 <= j < |layers| :: layers[j]
    ensures forall j :: 0 <= j < |layers| ==> layers[j][..] == Normalized(old(layers[j][..]))
  {
    var d := 0;
    while d < |layers|
      invariant 0 <= d <= |layers|
      invariant forall j :: 0 <= j < d ==> layers[j][..] == Normalized(old(layers[j][..]))
      invariant forall j :: d <= j < |layers| ==> Pending(old(layers[j][..]), layers[j][..])
    {
      ghost var mid := layers[d][..];
      NormalizeLayer(layers[d]);
      PendingDone(old(layers[d][..]), mid);
      d := d + 1;
    }
  }

  /** A PINS list not yet normalised, or normalised already through a layer sharing it. */
  predicate Pending(orig: seq<PinEntry>, cur: seq<PinEntry>) {
    cur == orig || cur == Normalized(orig)
  }

  /** Normalising a pending list gives the normalised original. */
  lemma PendingDone(orig: seq<PinEntry>, cur: seq<PinEntry>)
    requires Pending(orig, cur)
    ensures Normalized(cur) == Normalized(orig) && Pending(orig, Normalized(cur))
  {
    NormalizedIdempotent(orig);
  }

  // ---------------------------------------------------------------------
  // gather_fragments (pcbdl/base.py:282-296)
  // ---------------------------------------------------------------------

  /** `rest.index(f)`: the first position holding a fragment the same as `f`, if any. */
  function FirstSame(rest: seq<PinFragment>, f: PinFragment): (r: Option<nat>)
    ensures r.Some? ==> r.value < |rest| && SameAs(rest[r.value], f)
    ensures r.Some? ==> forall j :: 0 <= j < r.value ==> !SameAs(rest[j], f)
    ensures r.None? ==> forall j :: 0 <= j < |rest| ==> !SameAs(rest[j], f)
    decreases |rest|
  {
    if rest == [] then None
    else if SameAs(rest[0], f) then Some(0)
    else match FirstSame(rest[1..], f)
      case None => None
      case Some(i) => Some(i + 1)
  }

  /** `s.pop(i)` seen from the list: the sequence without position `i`. */
  function RemoveAt<T>(s: seq<T>, i: nat): (r: seq<T>)
    requires i < |s|
    ensures |r| == |s| - 1
  {
    s[..i] + s[i + 1..]
  }

  lemma RemoveAtMultiset<T>(s: seq<T>, i: nat)
    requires i < |s|
    ensures multiset(RemoveAt(s, i)) + multiset{s[i]} == multiset(s)
  {
    assert s == s[..i] + [s[i]] + s[i + 1..];
  }

  /**
   * The inner loop of gather_fragments: while some member of the group not
   * yet searched by (from position `idx` on) has a same-pin fragment left
   * in `rest`, move the first such fragment to the end of the group.
   * Returns the finished group and what is left.
   */
  function Grow(group: seq<PinFragment>, idx: nat, rest: seq<PinFragment>): (r: (seq<PinFragment>, seq<PinFragment>))
    ensures |group| <= |r.0| && |r.0| + |r.1| == |group| + |rest|
    decreases |rest|, |group| - idx
  {
    if idx >= |group| then (group, rest)
    else match FirstSame(rest, group[idx])
      case Some(i) => Grow(group + [rest[i]], idx, RemoveAt(rest, i))
      case None => Grow(group, idx + 1, rest)
  }

  /** Growing only appends to the group... */
  lemma {:induction false} GrowPrefix(group: seq<PinFragment>, idx: nat, rest: seq<PinFragment>)
    ensures Grow(group, idx, rest).0[..|group|] == group
    decreases |rest|, |group| - idx
  {
    if idx < |group| {
      match FirstSame(rest, group[idx])
      case Some(i) =>
        GrowPrefix(group + [rest[i]], idx, RemoveAt(rest, i));
        assert (group + [rest[i]])[..|group|] == group;
      case None =>
        GrowPrefix(group, idx + 1, rest);
    }
  }

  /** ...and only with fragments it takes from the rest: nothing is lost or invented. */
  lemma {:induction false} GrowMultiset(group: seq<PinFragment>, idx: nat, rest: seq<PinFragment>)
    ensures multiset(Grow(group, idx, rest).0) + multiset(Grow(group, idx, rest).1) == multiset(group) + multiset(rest)
    decreases |rest|, |group| - idx
  {
    if idx < |group| {
      match FirstSame(rest, group[idx])
      case Some(i) =>
        RemoveAtMultiset(rest, i);
        GrowMultiset(group + [rest[i]], idx, RemoveAt(rest, i));
      case None =>
        GrowMultiset(group, idx + 1, rest);
    }
  }

  /** The first group gather_fragments yields: grown from the first fragment. */
  function FirstGroup(fs: seq<PinFragment>): (g: seq<PinFragment>)
    requires fs != []
    ensures g != [] && g[0] == fs[0]
  {
    GrowPrefix([fs[0]], 0, fs[1..]);
    var g := Grow([fs[0]], 0, fs[1..]).0;
    assert g[..1] == [fs[0]];
    g
  }

  /** The fragments the first group leaves for the later ones. */
  function Leftover(fs: seq<PinFragment>): (rest: seq<PinFragment>)
    requires fs != []
    ensures |rest| < |fs|
  {
    Grow([fs[0]], 0, fs[1..]).1
  }

  /** The first group and what it leaves are, together, the fragments. */
  lemma FirstGroupLeftover(fs: seq<PinFragment>)
    requires fs != []
    ensures multiset(FirstGroup(fs)) + multiset(Leftover(fs)) == multiset(fs)
  {
    GrowMultiset([fs[0]], 0, fs[1..]);
    assert fs == [fs[0]] + fs[1..];
  }

  /** The groups gather_fragments yields, in order. */
  function Gather(fs: seq<PinFragment>): (gs: seq<seq<PinFragment>>)
    decreases |fs|
  {
    if fs == [] then [] else [FirstGroup(fs)] + Gather(Leftover(fs))
  }

  /** Every fragment lands in exactly one group, and no group is empty. */
  lemma {:induction false} GatherPartition(fs: seq<PinFragment>)
    ensures multiset(Flatten(Gather(fs))) == multiset(fs)
    ensures forall k :: 0 <= k < |Gather(fs)| ==> Gather(fs)[k] != []
    decreases |fs|
  {
    if fs != [] {
      var gs := Gather(fs);
      GatherPartition(Leftover(fs));
      FirstGroupLeftover(fs);
      assert gs[0] == FirstGroup(fs) && gs[1..] == Gather(Leftover(fs));
    }
  }

  /** The loop of gather_fragments over the fragments of all layers. */
  method GatherFragments(fs: seq<PinFragment>) returns (groups: seq<seq<PinFragment>>)
    ensures groups == Gather(fs)
  {
    var all := fs;
    groups := [];
    while |all| > 0
      invariant groups + Gather(all) == Gather(fs)
      decreases |all|
    {
      var group, rest := TakeGroup(all);
      GatherStep(groups, all);
      groups, all := groups + [group], rest;
    }
  }

  lemma GatherStep(done: seq<seq<PinFragment>>, fs: seq<PinFragment>)
    requires fs != []
    ensures done + Gather(fs) == (done + [FirstGroup(fs)]) + Gather(Leftover(fs))
  {
    var later := Gather(Leftover(fs));
    assert Gather(fs) == [FirstGroup(fs)] + later;
    assert (done + [FirstGroup(fs)]) + later == done + ([FirstGroup(fs)] + later);
  }

  /**
   * One pass of the outer loop of gather_fragments: pop the first fragment,
   * then keep popping the first fragment the same as the member at
   * `pin_index`, moving on to the next member when there is none, until
   * every member has been searched by.
   */
  method TakeGroup(fs: seq<PinFragment>) returns (group: seq<PinFragment>, all: seq<PinFragment>)
    requires fs != []
    ensures group == FirstGroup(fs) && all == Leftover(fs)
  {
    group := [fs[0]];
    all := fs[1..];
    var idx := 0;
    while true
      invariant Grow(group, idx, all) == Grow([fs[0]], 0, fs[1..])
      decreases |all|, |group| - idx
    {
      if idx >= |group| {
        break;
      }
      var found := FirstSame(all, group[idx]);
      if found.None? {
        idx := idx + 1;
      } else {
        group := group + [all[found.value]];
        all := RemoveAt(all, found.value);
      }
    }
  }

  // ---------------------------------------------------------------------
  // What the groups are: the partition into same-pin components
  // ---------------------------------------------------------------------

  /** `p` is a path through fragments of `u`, each the same pin as the next. */
  ghost predicate Chain(u: seq<PinFragment>, p: seq<PinFragment>) {
    |p| > 0 &&
    (forall i | 0 <= i < |p| :: p[i] in u) &&
    (forall i | 0 <= i < |p| - 1 :: SameAs(p[i], p[i + 1]))
  }

  /** A chain of pairwise same-pin fragments of `u` leads from `x` to `y`. */
  ghost predicate Connected(u: seq<PinFragment>, x: PinFragment, y: PinFragment) {
    exists p :: Chain(u, p) && p[0] == x && p[|p| - 1] == y
  }

  /** Every member after the first is the same pin as some earlier member. */
  ghost predicate Linked(g: seq<PinFragment>) {
    forall j | 0 < j < |g| :: HasEarlierMate(g, j)
  }

  ghost predicate HasEarlierMate(g: seq<PinFragment>, j: nat)
    requires j < |g|
  {
    exists p | 0 <= p < j :: SameAs(g[j], g[p])
  }

  lemma ChainExtend(u: seq<PinFragment>, x: PinFragment, y: PinFragment, z: PinFragment)
    requires Connected(u, x, y) && z in u && SameAs(y, z)
    ensures Connected(u, x, z)
  {
    var p :| Chain(u, p) && p[0] == x && p[|p| - 1] == y;
    var q := p + [z];
    assert Chain(u, q) && q[0] == x && q[|q| - 1] == z;
  }

  lemma ChainReverse(u: seq<PinFragment>, x: PinFragment, y: PinFragment)
    requires Connected(u, x, y)
    ensures Connected(u, y, x)
  {
    var p :| Chain(u, p) && p[0] == x && p[|p| - 1] == y;
    var q := seq(|p|, i requires 0 <= i < |p| => p[|p| - 1 - i]);
    forall i | 0 <= i < |q| - 1 ensures SameAs(q[i], q[i + 1]) {
      SameAsSymmetric(p[|p| - 2 - i], p[|p| - 1 - i]);
    }
    assert Chain(u, q) && q[0] == y && q[|q| - 1] == x;
  }

  lemma {:induction false} ChainJoin(u: seq<PinFragment>, x: PinFragment, y: PinFragment, z: PinFragment)
    requires Connected(u, x, y) && Connected(u, y, z)
    ensures Connected(u, x, z)
  {
    var p :| Chain(u, p) && p[0] == x && p[|p| - 1] == y;
    var q :| Chain(u, q) && q[0] == y && q[|q| - 1] == z;
    var r := p + q[1..];
    forall i | 0 <= i < |r| - 1 ensures SameAs(r[i], r[i + 1]) {
      if i < |p| - 1 {
        assert r[i] == p[i] && r[i + 1] == p[i + 1];
      } else {
        assert r[i] == q[i - |p| + 1] && r[i + 1] == q[i - |p| + 2];
      }
    }
    assert Chain(u, r) && r[0] == x && r[|r| - 1] == z;
  }

  lemma ChainWiden(u: seq<PinFragment>, v: seq<PinFragment>, x: PinFragment, y: PinFragment)
    requires Connected(u, x, y) && forall f :: f in u ==> f in v
    ensures Connected(v, x, y)
  {
    var p :| Chain(u, p) && p[0] == x && p[|p| - 1] == y;
    assert Chain(v, p);
  }

  /** In a linked group, the first member reaches every member. */
  lemma {:induction false} LinkedReachesAll(g: seq<PinFragment>, j: nat)
    requires Linked(g) && j < |g|
    ensures Connected(g, g[0], g[j])
    decreases j
  {
    if j == 0 {
      assert Chain(g, [g[0]]);
    } else {
      assert HasEarlierMate(g, j);
      var p :| 0 <= p < j && SameAs(g[j], g[p]);
      LinkedReachesAll(g, p);
      SameAsSymmetric(g[j], g[p]);
      ChainExtend(g, g[0], g[p], g[j]);
    }
  }

  lemma LinkedAppend(g: seq<PinFragment>, x: PinFragment, p: nat)
    requires Linked(g) && p < |g| && SameAs(x, g[p])
    ensures Linked(g + [x])
  {
    var g' := g + [x];
    forall j | 0 < j < |g'| ensures HasEarlierMate(g', j) {
      if j == |g| {
        assert g'[j] == x && g'[p] == g[p];
        assert SameAs(g'[j], g'[p]);
      } else {
        assert g'[j] == g[j];
        assert HasEarlierMate(g, j);
        var q :| 0 <= q < j && SameAs(g[j], g[q]);
        assert g'[q] == g[q];
        assert SameAs(g'[j], g'[q]);
      }
    }
    assert Linked(g');
  }

  /** Growing keeps the group linked. */
  lemma {:induction false} GrowLinked(group: seq<PinFragment>, idx: nat, rest: seq<PinFragment>)
    requires Linked(group)
    ensures Linked(Grow(group, idx, rest).0)
    decreases |rest|, |group| - idx
  {
    if idx < |group| {
      match FirstSame(rest, group[idx])
      case Some(i) =>
        LinkedAppend(group, rest[i], idx);
        GrowLinked(group + [rest[i]], idx, RemoveAt(rest, i));
      case None =>
        GrowLinked(group, idx + 1, rest);
    }
  }

  /** Nothing left over is the same pin as any member of the finished group. */
  lemma {:induction false} GrowSeparated(group: seq<PinFragment>, idx: nat, rest: seq<PinFragment>)
    requires forall j, x | 0 <= j < idx && j < |group| && x in rest :: !SameAs(x, group[j])
    ensures forall j, x | 0 <= j < |Grow(group, idx, rest).0| && x in Grow(group, idx, rest).1 ::
      !SameAs(x, Grow(group, idx, rest).0[j])
    decreases |rest|, |group| - idx
  {
    if idx < |group| {
      match FirstSame(rest, group[idx])
      case Some(i) =>
        var g' := group + [rest[i]];
        var rest' := RemoveAt(rest, i);
        RemoveAtMultiset(rest, i);
        forall j, x | 0 <= j < idx && j < |g'| && x in rest' ensures !SameAs(x, g'[j]) {
          assert x in multiset(rest');
          assert x in rest;
          assert g'[j] == group[j];
        }
        GrowSeparated(g', idx, rest');
      case None =>
        forall j, x | 0 <= j < idx + 1 && j < |group| && x in rest ensures !SameAs(x, group[j]) {
          if j == idx {
            var k :| 0 <= k < |rest| && rest[k] == x;
          }
        }
        GrowSeparated(group, idx + 1, rest);
    }
  }

  /** The first group is linked, and nothing it leaves is the same pin as any of its members. */
  lemma FirstGroupSeparated(fs: seq<PinFragment>)
    requires fs != []
    ensures forall j, x | 0 <= j < |FirstGroup(fs)| && x in Leftover(fs) :: !SameAs(x, FirstGroup(fs)[j])
  {
    GrowSeparated([fs[0]], 0, fs[1..]);
  }

  lemma FirstGroupLinked(fs: seq<PinFragment>)
    requires fs != []
    ensures Linked(FirstGroup(fs))
  {
    GrowLinked([fs[0]], 0, fs[1..]);
  }

  lemma InGroupInFragments(gs: seq<seq<PinFragment>>, fs: seq<PinFragment>, k: nat, x: PinFragment)
    requires multiset(Flatten(gs)) == multiset(fs) && k < |gs| && x in gs[k]
    ensures x in fs
  {
    FlattenMembers(gs, x);
    assert x in multiset(Flatten(gs));
  }

  lemma InFragmentsInGroup(gs: seq<seq<PinFragment>>, fs: seq<PinFragment>, x: PinFragment) returns (k: nat)
    requires multiset(Flatten(gs)) == multiset(fs) && x in fs
    ensures k < |gs| && x in gs[k]
  {
    assert x in multiset(fs);
    assert x in Flatten(gs);
    FlattenMembers(gs, x);
    k :| 0 <= k < |gs| && x in gs[k];
  }

  /** No later group holds a fragment that is the same pin as a member of the first group. */
  lemma FirstGroupVsLater(fs: seq<PinFragment>, l: nat, x: PinFragment, y: PinFragment)
    requires fs != [] && l < |Gather(Leftover(fs))|
    requires x in FirstGroup(fs) && y in Gather(Leftover(fs))[l]
    ensures !SameAs(x, y) && !SameAs(y, x)
  {
    FirstGroupSeparated(fs);
    GatherPartition(Leftover(fs));
    InGroupInFragments(Gather(Leftover(fs)), Leftover(fs), l, y);
    SameAsSymmetric(x, y);
  }

  lemma GatherFirst(fs: seq<PinFragment>)
    requires Gather(fs) != []
    ensures fs != [] && Gather(fs)[0] == FirstGroup(fs)
  {
  }

  lemma GatherLater(fs: seq<PinFragment>, k: nat)
    requires 0 < k < |Gather(fs)|
    ensures fs != [] && k - 1 < |Gather(Leftover(fs))| && Gather(fs)[k] == Gather(Leftover(fs))[k - 1]
  {
  }

  lemma InLaterGroup(fs: seq<PinFragment>, k: nat, x: PinFragment)
    requires 0 < k < |Gather(fs)| && x in Gather(fs)[k]
    ensures fs != [] && k - 1 < |Gather(Leftover(fs))| && x in Gather(Leftover(fs))[k - 1]
  {
    GatherLater(fs, k);
  }

  lemma SeparatedFromFirst(fs: seq<PinFragment>, l: nat, x: PinFragment, y: PinFragment)
    requires 0 < l < |Gather(fs)| && x in Gather(fs)[0] && y in Gather(fs)[l]
    ensures !SameAs(x, y) && !SameAs(y, x)
  {
    GatherFirst(fs);
    GatherLater(fs, l);
    FirstGroupVsLater(fs, l - 1, x, y);
  }

  /** No member of one group is the same pin as a member of another group. */
  lemma {:induction false} GatherSeparated(fs: seq<PinFragment>, k: nat, l: nat, x: PinFragment, y: PinFragment)
    requires k < |Gather(fs)| && l < |Gather(fs)| && k != l
    requires x in Gather(fs)[k] && y in Gather(fs)[l]
    ensures !SameAs(x, y)
    decreases |fs|
  {
    if k == 0 {
      SeparatedFromFirst(fs, l, x, y);
    } else if l == 0 {
      SeparatedFromFirst(fs, k, y, x);
    } else {
      InLaterGroup(fs, k, x);
      InLaterGroup(fs, l, y);
      GatherSeparated(Leftover(fs), k - 1, l - 1, x, y);
    }
  }

  /** Every group gather_fragments yields is linked by shared names. */
  lemma {:induction false} GatherLinked(fs: seq<PinFragment>, k: nat)
    requires k < |Gather(fs)|
    ensures Linked(Gather(fs)[k])
    decreases |fs|
  {
    if k == 0 {
      GatherFirst(fs);
      FirstGroupLinked(fs);
    } else {
      GatherLater(fs, k);
      GatherLinked(Leftover(fs), k - 1);
    }
  }

  /**
   * The groups are exactly the connected components of the same-pin
   * relation: a fragment `y` is in the group of `x` if and only if a chain of
   * fragments, each sharing a name with the next, leads from `x` to `y`.
   */
  lemma GatherComponent(fs: seq<PinFragment>, k: nat, x: PinFragment, y: PinFragment)
    requires k < |Gather(fs)| && x in Gather(fs)[k]
    ensures Connected(fs, x, y) <==> y in Gather(fs)[k]
  {
    var gs := Gather(fs);
    var g := gs[k];
    GatherPartition(fs);
    forall f | f in g ensures f in fs {
      InGroupInFragments(gs, fs, k, f);
    }
    if y in g {
      GatherLinked(fs, k);
      var i :| 0 <= i < |g| && g[i] == x;
      var j :| 0 <= j < |g| && g[j] == y;
      LinkedReachesAll(g, i);
      LinkedReachesAll(g, j);
      ChainReverse(g, g[0], x);
      ChainJoin(g, x, g[0], y);
      ChainWiden(g, fs, x, y);
    }
    if Connected(fs, x, y) {
      var p :| Chain(fs, p) && p[0] == x && p[|p| - 1] == y;
      ChainStaysInGroup(fs, k, p, |p| - 1);
    }
  }

  lemma {:induction false} ChainStaysInGroup(fs: seq<PinFragment>, k: nat, p: seq<PinFragment>, n: nat)
    requires k < |Gather(fs)| && Chain(fs, p) && p[0] in Gather(fs)[k] && n < |p|
    ensures p[n] in Gather(fs)[k]
    decreases n
  {
    if n > 0 {
      ChainStaysInGroup(fs, k, p, n - 1);
      GatherPartition(fs);
      var l := InFragmentsInGroup(Gather(fs), fs, p[n]);
      if l != k {
        GatherSeparated(fs, k, l, p[n - 1], p[n]);
        assert false;
      }
    }
  }

  /** Two different groups never share a name. */
  lemma GatherNamesDisjoint(fs: seq<PinFragment>, k: nat, l: nat, x: PinFragment, y: PinFragment, n: string)
    requires k < |Gather(fs)| && l < |Gather(fs)| && k != l
    requires x in Gather(fs)[k] && y in Gather(fs)[l] && n in x.names
    ensures n !in y.names
  {
    GatherSeparated(fs, k, l, x, y);
    var i :| 0 <= i < |x.names| && x.names[i] == n;
  }

  // ---------------------------------------------------------------------
  // The order of the groups
  // ---------------------------------------------------------------------

  /**
   * While a group grows, what is left is the fragments it started from with
   * the newly taken members removed: each step takes the earliest fragment
   * sharing a name, and so the earliest copy of that value.
   */
  lemma {:induction false} GrowLeftover(group: seq<PinFragment>, idx: nat, rest: seq<PinFragment>,
                                        rest0: seq<PinFragment>, n: nat)
    requires n <= |group| && rest == Minus(rest0, multiset(group[n..]))
    ensures n <= |Grow(group, idx, rest).0|
    ensures Grow(group, idx, rest).1 == Minus(rest0, multiset(Grow(group, idx, rest).0[n..]))
    decreases |rest|, |group| - idx
  {
    if idx < |group| {
      match FirstSame(rest, group[idx])
      case Some(i) =>
        var g' := group + [rest[i]];
        forall j | 0 <= j < i ensures rest[j] != rest[i] {
          assert !SameAs(rest[j], group[idx]);
        }
        RemoveFirstIsMinus(rest, i);
        MinusMinus(rest0, multiset(group[n..]), multiset{rest[i]});
        assert g'[n..] == group[n..] + [rest[i]];
        GrowLeftover(g', idx, RemoveAt(rest, i), rest0, n);
      case None =>
        GrowLeftover(group, idx + 1, rest, rest0, n);
    }
  }

  lemma FlattenCons<T>(g: seq<T>, gs: seq<seq<T>>)
    ensures Flatten([g] + gs) == g + Flatten(gs)
  {
    assert ([g] + gs)[0] == g && ([g] + gs)[1..] == gs;
  }

  /**
   * What the first group leaves is the fragment list with the group's members
   * taken out (the earliest copy of a repeated value first), order kept.
   */
  lemma LeftoverIsMinus(fs: seq<PinFragment>)
    requires fs != []
    ensures Leftover(fs) == Minus(fs, multiset(FirstGroup(fs)))
  {
    var g, rest := FirstGroup(fs), Leftover(fs);
    assert [fs[0]][1..] == [];
    MinusNothing(fs[1..]);
    GrowLeftover([fs[0]], 0, fs[1..], fs[1..], 1);
    assert rest == Minus(fs[1..], multiset(g[1..]));
    assert g == [fs[0]] + g[1..];
    assert multiset(g) - multiset{fs[0]} == multiset(g[1..]);
  }

  /**
   * Each group starts with the earliest fragment that no earlier group has
   * taken, so the groups come in the order of their first members.
   */
  lemma {:induction false} GatherHead(fs: seq<PinFragment>, k: nat)
    requires k < |Gather(fs)|
    ensures Gather(fs)[k] != []
    ensures Minus(fs, multiset(Flatten(Gather(fs)[..k]))) != []
    ensures Gather(fs)[k][0] == Minus(fs, multiset(Flatten(Gather(fs)[..k])))[0]
    decreases |fs|
  {
    var g, rest := FirstGroup(fs), Leftover(fs);
    var gs := Gather(rest);
    assert Gather(fs) == [g] + gs;
    GatherPartition(fs);
    if k == 0 {
      assert Gather(fs)[..0] == [];
      assert Flatten<PinFragment>([]) == [];
      MinusNothing(fs);
    } else {
      LeftoverIsMinus(fs);
      GatherHead(rest, k - 1);
      assert Gather(fs)[..k] == [g] + gs[..k - 1];
      FlattenCons(g, gs[..k - 1]);
      MinusMinus(fs, multiset(g), multiset(Flatten(gs[..k - 1])));
      assert Gather(fs)[k] == gs[k - 1];
    }
  }
}
