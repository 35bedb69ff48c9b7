// Interfaces (SPI, I2C, ...), the signal look-up they offer, and the pure
// part of deriving a part's ports from its pins (Interface and
// PartInstancePort._create_ports in pcbdl/base.py). The pins themselves are
// a type parameter `P`; the regular expression of an interface is an
// uninterpreted function from a pin name to its optional capture groups.
module Interfaces {
  import opened Core
  import opened OrderedMaps

  /**
   * One entry of an interface's SIGNALS: a signal name, a tuple of
   * alternative names (the first is the main one), or a nested interface
   * (which the builder does not support yet).
   */
  datatype Signal = Str(s: string) | Aliases(names: seq<string>) | Nested

  /** An interface class: its identity (the class name) and its SIGNALS. */
  datatype InterfaceClass = InterfaceClass(className: string, signals: seq<Signal>)

  /**
   * An interface instance: its class, the compiled regex (`regex(name)` is
   * `None` when the name does not match, else the capture groups) and the
   * optional `name` attribute.
   */
  datatype Interface = Interface(cls: InterfaceClass, regex: string -> Option<seq<string>>, name: Option<string>)

  // ---------------------------------------------------------------------
  // signal_matching_name (pcbdl/base.py:644-654)
  // ---------------------------------------------------------------------

  /**
   * The test applied to each signal, as written: `name == signal`, then
   * `name in signal`, which on a string signal is a SUBSTRING test and on a
   * nested interface raises TypeError (an interface is not a container).
   */
  function WrittenTest(sig: Signal, name: string): Result<bool> {
    match sig
    case Str(s) => Ok(s == name || Contains(s, name))
    case Aliases(ns) => Ok(name in ns)
    case Nested => Err(TypeError)
  }

  /** The evidently intended test: a string signal matches only its own name. */
  function ExactTest(sig: Signal, name: string): Result<bool> {
    match sig
    case Str(s) => Ok(s == name)
    case Aliases(ns) => Ok(name in ns)
    case Nested => Err(TypeError)
  }

  /** A test of a pin fragment against one signal. */
  type Matcher = (Signal, string) -> Result<bool>

  /** No signal before position `i` passes or raises under `test`. */
  ghost predicate RejectedBefore(signals: seq<Signal>, name: string, test: (Signal, string) -> Result<bool>, i: int) {
    forall j | 0 <= j < i && j < |signals| :: test(signals[j], name) == Ok(false)
  }

  /**
   * The loop of signal_matching_name under a given test: the first signal
   * the test accepts, the first error it raises, or KeyError when it
   * rejects every signal.
   */
  function FirstMatching(signals: seq<Signal>, name: string, test: (Signal, string) -> Result<bool>): (r: Result<Signal>)
    ensures RejectedBefore(signals, name, test, |signals|) ==> r == Err(KeyError)
    ensures forall i | 0 <= i < |signals| && RejectedBefore(signals, name, test, i) ::
      (test(signals[i], name) == Ok(true) ==> r == Ok(signals[i])) &&
      (test(signals[i], name).Err? ==> r == Err(test(signals[i], name).error))
    decreases |signals|
  {
    if signals == [] then Err(KeyError)
    else
      match test(signals[0], name)
      case Err(e) => Err(e)
      case Ok(true) => Ok(signals[0])
      case Ok(false) =>
        var r := FirstMatching(signals[1..], name, test);
        assert forall i | 1 <= i <= |signals| && RejectedBefore(signals, name, test, i) ::
          RejectedBefore(signals[1..], name, test, i - 1);
        r
  }

  /** `Interface.signal_matching_name`, as written. */
  function SignalMatchingNameAsWritten(cls: InterfaceClass, name: string): Result<Signal> {
    FirstMatching(cls.signals, name, WrittenTest)
  }

  /** `Interface.signal_matching_name` with whole-name matching of string signals. */
  function SignalMatchingName(cls: InterfaceClass, name: string): Result<Signal> {
    FirstMatching(cls.signals, name, ExactTest)
  }

  /** The matcher's outcome depends only on the test's verdicts on these signals. */
  lemma {:induction false} FirstMatchingSameVerdicts(signals: seq<Signal>, name: string, t1: (Signal, string) -> Result<bool>, t2: (Signal, string) -> Result<bool>)
    requires forall i | 0 <= i < |signals| :: t1(signals[i], name) == t2(signals[i], name)
    ensures FirstMatching(signals, name, t1) == FirstMatching(signals, name, t2)
    decreases |signals|
  {
    if signals != [] {
      FirstMatchingSameVerdicts(signals[1..], name, t1, t2);
    }
  }

  /**
   * Both matchers agree whenever no string signal contains the name as a
   * proper part of itself.
   */
  lemma MatchersAgreeWithoutPartialNames(cls: InterfaceClass, name: string)
    requires forall i | 0 <= i < |cls.signals| && cls.signals[i].Str? ::
      Contains(cls.signals[i].s, name) ==> cls.signals[i].s == name
    ensures SignalMatchingNameAsWritten(cls, name) == SignalMatchingName(cls, name)
  {
    FirstMatchingSameVerdicts(cls.signals, name, WrittenTest, ExactTest);
  }

  /** An example signal set: the four signals of an SPI bus. */
  function Spi(): InterfaceClass {
    InterfaceClass("SPI", [Str("MOSI"), Str("MISO"), Str("SCK"), Str("CS")])
  }

  /**
   * As written, a pin fragment "SI" is taken for MOSI, because "SI" occurs
   * in "MOSI"; the intended matcher rejects it.
   */
  lemma SubstringMatchesWrongSignal()
    ensures SignalMatchingNameAsWritten(Spi(), "SI") == Ok(Str("MOSI"))
    ensures SignalMatchingName(Spi(), "SI") == Err(KeyError)
  {
    assert OccursAt("MOSI", "SI", 2);
    assert RejectedBefore(Spi().signals, "SI", ExactTest, 4);
  }

  /** As written, an earlier signal can shadow a later signal's own name. */
  lemma SubstringShadowsExactSignal()
    ensures SignalMatchingNameAsWritten(InterfaceClass("CLK", [Str("SCK"), Str("CK")]), "CK") == Ok(Str("SCK"))
    ensures SignalMatchingName(InterfaceClass("CLK", [Str("SCK"), Str("CK")]), "CK") == Ok(Str("CK"))
  {
    assert OccursAt("SCK", "CK", 1);
    assert RejectedBefore([Str("SCK"), Str("CK")], "CK", ExactTest, 1);
  }

  // ---------------------------------------------------------------------
  // signal_name (pcbdl/base.py:656-663)
  // ---------------------------------------------------------------------

  /** `Interface.signal_name`: the main name of a signal. */
  function SignalName(sig: Signal): Result<string> {
    match sig
    case Str(s) => Ok(s)
    case Aliases(ns) => if ns == [] then Err(IndexError) else Ok(ns[0])
    case Nested => Err(NotImplementedError)
  }

  /**
   * A signal accepts its own main name, so looking a signal up by its main
   * name finds it unless an earlier signal accepts that name first.
   */
  lemma MainNameFindsSignal(cls: InterfaceClass, i: nat, n: string)
    requires i < |cls.signals| && SignalName(cls.signals[i]) == Ok(n)
    requires RejectedBefore(cls.signals, n, ExactTest, i)
    ensures SignalMatchingName(cls, n) == Ok(cls.signals[i])
  {
    assert ExactTest(cls.signals[i], n) == Ok(true);
  }

  // ---------------------------------------------------------------------
  // Bucketing regex matches by port (pcbdl/base.py:753-760)
  // ---------------------------------------------------------------------

  /** The matches of one interface: port key (the leading groups) to signal fragment to pin. */
  type Buckets<P> = OMap<seq<string>, OMap<string, P>>

  ghost predicate BucketsValid<P>(b: Buckets<P>) {
    b.Valid() && forall k | k in b.entries :: b.entries[k].Valid()
  }

  /** `matches[k]` of the defaultdict: the bucket, or a new empty one. */
  function BucketAt<P>(b: Buckets<P>, k: seq<string>): (r: OMap<string, P>)
    requires BucketsValid(b)
    ensures r.Valid()
  {
    if k in b.entries then b.entries[k] else Empty()
  }

  /** Every (pin, name) pair in the order the loop visits them: pins in order, each pin's names in order. */
  function NamePairs<P>(pins: seq<P>, namesOf: P -> seq<string>): seq<(P, string)>
    decreases |pins|
  {
    if pins == [] then []
    else NamePairs(pins[..|pins| - 1], namesOf) + PinPairs(pins[|pins| - 1], namesOf(pins[|pins| - 1]))
  }

  function PinPairs<P>(p: P, names: seq<string>): (r: seq<(P, string)>)
    ensures |r| == |names| && forall i | 0 <= i < |names| :: r[i] == (p, names[i])
  {
    seq(|names|, i requires 0 <= i < |names| => (p, names[i]))
  }

  /**
   * The unpacking `*maybe_port_name, pin_name = match.groups()` of a name's
   * match, when it matches: `Some(Ok(...))` with the key and the signal
   * fragment, `Some(Err(ValueError))` when the regex has no group at all.
   */
  function Split(regex: string -> Option<seq<string>>, name: string): Option<Result<(seq<string>, string)>> {
    match regex(name)
    case None => None
    case Some(gs) => if gs == [] then Some(Err(ValueError)) else Some(Ok((gs[..|gs| - 1], gs[|gs| - 1])))
  }

  /** One step of the bucketing loop. */
  function AddMatch<P>(b: Buckets<P>, pair: (P, string), regex: string -> Option<seq<string>>): (r: Result<Buckets<P>>)
    requires BucketsValid(b)
    ensures r.Ok? ==> BucketsValid(r.value)
  {
    match Split(regex, pair.1)
    case None => Ok(b)
    case Some(Err(e)) => Err(e)
    case Some(Ok((k, pn))) => Ok(Put(b, k, Put(BucketAt(b, k), pn, pair.0)))
  }

  /** The buckets after visiting the given pairs in order. */
  function Collect<P>(pairs: seq<(P, string)>, regex: string -> Option<seq<string>>): (r: Result<Buckets<P>>)
    ensures r.Ok? ==> BucketsValid(r.value)
    decreases |pairs|
  {
    if pairs == [] then Ok(Empty())
    else
      match Collect(pairs[..|pairs| - 1], regex)
      case Err(e) => Err(e)
      case Ok(b) => AddMatch(b, pairs[|pairs| - 1], regex)
  }

  /** Bucketing fails, with ValueError, exactly when some visited name matches with no groups. */
  lemma {:induction false} CollectFails<P>(pairs: seq<(P, string)>, regex: string -> Option<seq<string>>)
    ensures Collect(pairs, regex).Err? <==> exists j | 0 <= j < |pairs| :: regex(pairs[j].1) == Some([])
    ensures Collect(pairs, regex).Err? ==> Collect(pairs, regex).error == ValueError
    decreases |pairs|
  {
    if pairs != [] {
      var init := pairs[..|pairs| - 1];
      CollectFails(init, regex);
      assert forall j | 0 <= j < |init| :: init[j] == pairs[j];
    }
  }

  /** A (key, fragment) entry exists exactly when some visited name matched with those groups. */
  lemma {:induction false} CollectHas<P>(pairs: seq<(P, string)>, regex: string -> Option<seq<string>>, k: seq<string>, pn: string)
    requires Collect(pairs, regex).Ok?
    ensures var b := Collect(pairs, regex).value;
      k in b.entries && pn in b.entries[k].entries <==>
      exists j | 0 <= j < |pairs| :: Split(regex, pairs[j].1) == Some(Ok((k, pn)))
    decreases |pairs|
  {
    if pairs != [] {
      var init := pairs[..|pairs| - 1];
      CollectHas(init, regex, k, pn);
      AddMatchHas(Collect(init, regex).value, pairs[|pairs| - 1], regex, k, pn);
      assert forall j | 0 <= j < |init| :: init[j] == pairs[j];
    }
  }

  /** One step adds the (key, fragment) entry of its own match and keeps the others. */
  lemma AddMatchHas<P>(b: Buckets<P>, pair: (P, string), regex: string -> Option<seq<string>>, k: seq<string>, pn: string)
    requires BucketsValid(b) && AddMatch(b, pair, regex).Ok?
    ensures var r := AddMatch(b, pair, regex).value;
      k in r.entries && pn in r.entries[k].entries <==>
      (k in b.entries && pn in b.entries[k].entries) || Split(regex, pair.1) == Some(Ok((k, pn)))
  {
  }

  /** A port key exists exactly when some visited name matched with that key. */
  lemma {:induction false} CollectHasKey<P>(pairs: seq<(P, string)>, regex: string -> Option<seq<string>>, k: seq<string>)
    requires Collect(pairs, regex).Ok?
    ensures k in Collect(pairs, regex).value.entries <==>
      exists j | 0 <= j < |pairs| :: Split(regex, pairs[j].1).Some? && Split(regex, pairs[j].1).value.Ok? &&
        Split(regex, pairs[j].1).value.value.0 == k
    decreases |pairs|
  {
    if pairs != [] {
      var init := pairs[..|pairs| - 1];
      CollectHasKey(init, regex, k);
      assert forall j | 0 <= j < |init| :: init[j] == pairs[j];
    }
  }

  /** Within a bucket, the pin of the LAST name matched for a signal fragment wins. */
  lemma {:induction false} CollectLastWins<P>(pairs: seq<(P, string)>, regex: string -> Option<seq<string>>, j: nat, k: seq<string>, pn: string)
    requires Collect(pairs, regex).Ok? && j < |pairs|
    requires Split(regex, pairs[j].1) == Some(Ok((k, pn)))
    requires forall l | j < l < |pairs| :: Split(regex, pairs[l].1) != Some(Ok((k, pn)))
    ensures var b := Collect(pairs, regex).value;
      k in b.entries && pn in b.entries[k].entries && b.entries[k].entries[pn] == pairs[j].0
    decreases |pairs|
  {
    var init := pairs[..|pairs| - 1];
    if j < |pairs| - 1 {
      CollectLastWins(init, regex, j, k, pn);
    }
  }

  /**
   * The bucketing loop over the part's pins, as the source runs it: for
   * each pin, for each of its names, file the pin under its match.
   */
  method CollectMatches<P>(pins: seq<P>, namesOf: P -> seq<string>, regex: string -> Option<seq<string>>) returns (r: Result<Buckets<P>>)
    ensures r == Collect(NamePairs(pins, namesOf), regex)
  {
    var b: Buckets<P> := Empty();
    var i := 0;
    while i < |pins|
      invariant 0 <= i <= |pins|
      invariant Collect(NamePairs(pins[..i], namesOf), regex) == Ok(b)
    {
      NamePairsStep(pins, namesOf, i);
      var s := CollectPin(b, NamePairs(pins[..i], namesOf), pins[i], namesOf(pins[i]), regex);
      if s.Err? {
        NamePairsAppend(pins, namesOf, i + 1);
        CollectErrExtends(NamePairs(pins[..i + 1], namesOf), NamePairs(pins, namesOf)[|NamePairs(pins[..i + 1], namesOf)|..], regex);
        return s;
      }
      b := s.value;
      i := i + 1;
    }
    assert pins[..i] == pins;
    r := Ok(b);
  }

  /** The inner loop: file one pin under the match of each of its names. */
  method CollectPin<P>(b: Buckets<P>, ghost before: seq<(P, string)>, p: P, names: seq<string>, regex: string -> Option<seq<string>>)
    returns (r: Result<Buckets<P>>)
    requires Collect(before, regex) == Ok(b)
    ensures r == Collect(before + PinPairs(p, names), regex)
  {
    var c := b;
    var a := 0;
    ghost var visited := before;
    assert before + PinPairs(p, names[..0]) == before;
    while a < |names|
      invariant 0 <= a <= |names|
      invariant visited == before + PinPairs(p, names[..a])
      invariant Collect(visited, regex) == Ok(c)
    {
      var s := AddMatch(c, (p, names[a]), regex);
      CollectAppend(visited, (p, names[a]), regex);
      PinPairsSnoc(before, p, names, a);
      visited := visited + [(p, names[a])];
      if s.Err? {
        CollectErrExtends(visited, PinPairs(p, names[a + 1..]), regex);
        PinPairsSplit(before, p, names, a + 1);
        return s;
      }
      c := s.value;
      a := a + 1;
    }
    assert names[..a] == names;
    r := Ok(c);
  }

  /** Collect on one more pair is one more step of the loop. */
  lemma CollectAppend<P>(u: seq<(P, string)>, x: (P, string), regex: string -> Option<seq<string>>)
    ensures Collect(u + [x], regex) == match Collect(u, regex) case Err(e) => Err(e) case Ok(c) => AddMatch(c, x, regex)
  {
    assert (u + [x])[..|u|] == u;
  }

  /** Once bucketing has failed, later pairs do not change the outcome. */
  lemma {:induction false} CollectErrExtends<P>(u: seq<(P, string)>, w: seq<(P, string)>, regex: string -> Option<seq<string>>)
    requires Collect(u, regex).Err?
    ensures Collect(u + w, regex) == Collect(u, regex)
    decreases |w|
  {
    if w != [] {
      var w' := w[..|w| - 1];
      CollectErrExtends(u, w', regex);
      assert u + w == (u + w') + [w[|w| - 1]];
      CollectAppend(u + w', w[|w| - 1], regex);
    } else {
      assert u + w == u;
    }
  }

  lemma PinPairsSnoc<P>(before: seq<(P, string)>, p: P, names: seq<string>, a: nat)
    requires a < |names|
    ensures before + PinPairs(p, names[..a + 1]) == before + PinPairs(p, names[..a]) + [(p, names[a])]
  {
    assert PinPairs(p, names[..a + 1]) == PinPairs(p, names[..a]) + [(p, names[a])];
  }

  lemma PinPairsSplit<P>(before: seq<(P, string)>, p: P, names: seq<string>, a: nat)
    requires a <= |names|
    ensures before + PinPairs(p, names) == before + PinPairs(p, names[..a]) + PinPairs(p, names[a..])
  {
    assert PinPairs(p, names) == PinPairs(p, names[..a]) + PinPairs(p, names[a..]);
  }

  lemma NamePairsStep<P>(pins: seq<P>, namesOf: P -> seq<string>, i: nat)
    requires i < |pins|
    ensures NamePairs(pins[..i + 1], namesOf) == NamePairs(pins[..i], namesOf) + PinPairs(pins[i], namesOf(pins[i]))
  {
    assert pins[..i + 1][..i] == pins[..i];
  }

  /** The pairs of a prefix of the pins are a prefix of all pairs. */
  lemma {:induction false} NamePairsAppend<P>(pins: seq<P>, namesOf: P -> seq<string>, n: nat)
    requires n <= |pins|
    ensures |NamePairs(pins[..n], namesOf)| <= |NamePairs(pins, namesOf)|
    ensures NamePairs(pins, namesOf) == NamePairs(pins[..n], namesOf) + NamePairs(pins, namesOf)[|NamePairs(pins[..n], namesOf)|..]
    decreases |pins| - n
  {
    if n < |pins| {
      NamePairsAppend(pins, namesOf, n + 1);
      NamePairsStep(pins, namesOf, n);
    } else {
      assert pins[..n] == pins;
    }
  }

  // ---------------------------------------------------------------------
  // From buckets to ports (pcbdl/base.py:762-782)
  // ---------------------------------------------------------------------

  /**
   * The pins of one port, by signal main name, from a bucket's fragments in
   * order: a fragment that no signal accepts (KeyError) is skipped, any
   * other failure propagates.
   */
  function SignalAssignments<P>(cls: InterfaceClass, fragments: seq<string>, bucket: OMap<string, P>, test: Matcher): (r: Result<seq<(string, P)>>)
    requires forall i | 0 <= i < |fragments| :: fragments[i] in bucket.entries
  {
    Gather(Assigned(cls, fragments, test), FragmentPins(fragments, bucket))
  }

  /** Each fragment's verdict, in order. */
  function Assigned(cls: InterfaceClass, fragments: seq<string>, test: Matcher): (r: seq<Result<Option<string>>>)
    ensures |r| == |fragments| && forall i | 0 <= i < |fragments| :: r[i] == Assign(cls, fragments[i], test)
  {
    seq(|fragments|, i requires 0 <= i < |fragments| => Assign(cls, fragments[i], test))
  }

  /** Each fragment's pin, in order. */
  function FragmentPins<P>(fragments: seq<string>, bucket: OMap<string, P>): (r: seq<P>)
    requires forall i | 0 <= i < |fragments| :: fragments[i] in bucket.entries
    ensures |r| == |fragments| && forall i | 0 <= i < |fragments| :: r[i] == bucket.entries[fragments[i]]
  {
    seq(|fragments|, i requires 0 <= i < |fragments| => bucket.entries[fragments[i]])
  }

  /** The accepted pins under their signal names, in order; the first failing verdict stops. */
  function Gather<P>(verdicts: seq<Result<Option<string>>>, ps: seq<P>): Result<seq<(string, P)>>
    requires |verdicts| == |ps|
    decreases |ps|
  {
    if ps == [] then Ok([])
    else
      match verdicts[0]
      case Err(e) => Err(e)
      case Ok(a) =>
        var rest := Gather(verdicts[1..], ps[1..]);
        if rest.Err? then rest
        else Ok(Contribution(a, ps[0]) + rest.value)
  }

  /** What the first fragment adds in front of the rest's assignments. */
  function Contribution<P>(a: Option<string>, pin: P): seq<(string, P)> {
    if a.Some? then [(a.value, pin)] else []
  }

  /**
   * What one fragment contributes: `Some` signal main name, `None` when no
   * signal accepts it, or the error of a nested interface or empty tuple.
   */
  function Assign(cls: InterfaceClass, fragment: string, test: Matcher): Result<Option<string>> {
    match FirstMatching(cls.signals, fragment, test)
    case Err(KeyError) => Ok(None)
    case Err(e) => Err(e)
    case Ok(sig) =>
      match SignalName(sig)
      case Err(e) => Err(e)
      case Ok(n) => Ok(Some(n))
  }

  /** On success, every pin accepted under a signal name is gathered under that name. */
  lemma {:induction false} GatherHas<P>(verdicts: seq<Result<Option<string>>>, ps: seq<P>, i: nat, n: string)
    returns (l: nat)
    requires |verdicts| == |ps| && Gather(verdicts, ps).Ok?
    requires i < |ps| && verdicts[i] == Ok(Some(n))
    ensures l < |Gather(verdicts, ps).value| && Gather(verdicts, ps).value[l] == (n, ps[i])
    decreases |ps|
  {
    var head := Contribution(verdicts[0].value, ps[0]);
    assert Gather(verdicts, ps).value == head + Gather(verdicts[1..], ps[1..]).value;
    if i == 0 {
      l := 0;
    } else {
      assert verdicts[1..][i - 1] == verdicts[i] && ps[1..][i - 1] == ps[i];
      var l' := GatherHas(verdicts[1..], ps[1..], i - 1, n);
      l := |head| + l';
    }
  }

  /** On success, every gathered entry is a pin accepted under that signal name. */
  lemma {:induction false} GatherSource<P>(verdicts: seq<Result<Option<string>>>, ps: seq<P>, l: nat)
    returns (i: nat)
    requires |verdicts| == |ps| && Gather(verdicts, ps).Ok? && l < |Gather(verdicts, ps).value|
    ensures i < |ps| && verdicts[i] == Ok(Some(Gather(verdicts, ps).value[l].0))
    ensures Gather(verdicts, ps).value[l].1 == ps[i]
    decreases |ps|
  {
    var head := Contribution(verdicts[0].value, ps[0]);
    assert Gather(verdicts, ps).value == head + Gather(verdicts[1..], ps[1..]).value;
    if l < |head| {
      i := 0;
    } else {
      var i' := GatherSource(verdicts[1..], ps[1..], l - |head|);
      assert verdicts[1..][i'] == verdicts[i' + 1] && ps[1..][i'] == ps[i' + 1];
      i := i' + 1;
    }
  }

  /**
   * On success, the pin accepted last under a signal name is gathered under
   * that name after every other entry of that name.
   */
  lemma {:induction false} GatherLast<P>(verdicts: seq<Result<Option<string>>>, ps: seq<P>, i: nat, n: string)
    returns (l: nat)
    requires |verdicts| == |ps| && Gather(verdicts, ps).Ok?
    requires i < |ps| && verdicts[i] == Ok(Some(n))
    requires forall j | i < j < |ps| :: verdicts[j] != Ok(Some(n))
    ensures l < |Gather(verdicts, ps).value| && Gather(verdicts, ps).value[l] == (n, ps[i])
    ensures forall l' | l < l' < |Gather(verdicts, ps).value| :: Gather(verdicts, ps).value[l'].0 != n
    decreases |ps|
  {
    var head := Contribution(verdicts[0].value, ps[0]);
    var tail: seq<(string, P)> := Gather(verdicts[1..], ps[1..]).value;
    assert Gather(verdicts, ps).value == head + tail;
    if i == 0 {
      l := 0;
      forall l' | 0 < l' < |head + tail| ensures (head + tail)[l'].0 != n {
        var i' := GatherSource(verdicts[1..], ps[1..], l' - 1);
        assert verdicts[1..][i'] == verdicts[i' + 1];
      }
    } else {
      forall j | i - 1 < j < |ps[1..]| ensures verdicts[1..][j] != Ok(Some(n)) {
        assert verdicts[1..][j] == verdicts[j + 1];
      }
      assert verdicts[1..][i - 1] == verdicts[i] && ps[1..][i - 1] == ps[i];
      var l' := GatherLast(verdicts[1..], ps[1..], i - 1, n);
      l := |head| + l';
    }
  }

  /** Among the verdicts accepting a name, one comes last. */
  lemma {:induction false} LastAccepted(verdicts: seq<Result<Option<string>>>, n: string, i: nat) returns (m: nat)
    requires i < |verdicts| && verdicts[i] == Ok(Some(n))
    ensures i <= m < |verdicts| && verdicts[m] == Ok(Some(n))
    ensures forall j | m < j < |verdicts| :: verdicts[j] != Ok(Some(n))
    decreases |verdicts| - i
  {
    if j :| i < j < |verdicts| && verdicts[j] == Ok(Some(n)) {
      m := LastAccepted(verdicts, n, j);
    } else {
      m := i;
    }
  }

  /**
   * The pins of a successfully built port: a signal main name is present
   * exactly when a fragment of the bucket is accepted under it, and it holds
   * the pin of the last such fragment (each assignment overwrites).
   */
  lemma PortPinsSpec<P>(cls: InterfaceClass, bucket: OMap<string, P>, n: string, test: Matcher)
    requires bucket.Valid() && SignalAssignments(cls, bucket.keys, bucket, test).Ok?
    ensures var pins := PutAll(Empty(), SignalAssignments(cls, bucket.keys, bucket, test).value);
      (n in pins.entries <==> exists i | 0 <= i < |bucket.keys| :: Assign(cls, bucket.keys[i], test) == Ok(Some(n))) &&
      (n in pins.entries ==> exists i | 0 <= i < |bucket.keys| ::
        Assign(cls, bucket.keys[i], test) == Ok(Some(n)) &&
        (forall j | i < j < |bucket.keys| :: Assign(cls, bucket.keys[j], test) != Ok(Some(n))) &&
        pins.entries[n] == bucket.entries[bucket.keys[i]])
  {
    PortPinsSource(cls, bucket, n, test);
    PortPinsHas(cls, bucket, n, test);
  }

  /** A signal the port holds came from the last fragment of the bucket accepted under it, with that fragment's pin. */
  lemma PortPinsSource<P>(cls: InterfaceClass, bucket: OMap<string, P>, n: string, test: Matcher)
    requires bucket.Valid() && SignalAssignments(cls, bucket.keys, bucket, test).Ok?
    ensures var pins := PutAll(Empty(), SignalAssignments(cls, bucket.keys, bucket, test).value);
      n in pins.entries ==> exists i | 0 <= i < |bucket.keys| ::
        Assign(cls, bucket.keys[i], test) == Ok(Some(n)) &&
        (forall j | i < j < |bucket.keys| :: Assign(cls, bucket.keys[j], test) != Ok(Some(n))) &&
        pins.entries[n] == bucket.entries[bucket.keys[i]]
  {
    var verdicts, ps := Assigned(cls, bucket.keys, test), FragmentPins(bucket.keys, bucket);
    var kvs := SignalAssignments(cls, bucket.keys, bucket, test).value;
    var pins := PutAll(Empty(), kvs);
    if n in pins.entries {
      PutAllValueSource(Empty(), kvs, n);
      var l0 :| 0 <= l0 < |kvs| && kvs[l0] == (n, pins.entries[n]);
      var i0 := GatherSource(verdicts, ps, l0);
      var i := LastAccepted(verdicts, n, i0);
      var l := GatherLast(verdicts, ps, i, n);
      PutAllLastWins(Empty(), kvs, l);
      assert pins.entries[n] == bucket.entries[bucket.keys[i]];
    }
  }

  /** A signal some fragment of the bucket is accepted under is held by the port. */
  lemma PortPinsHas<P>(cls: InterfaceClass, bucket: OMap<string, P>, n: string, test: Matcher)
    requires bucket.Valid() && SignalAssignments(cls, bucket.keys, bucket, test).Ok?
    ensures (exists i | 0 <= i < |bucket.keys| :: Assign(cls, bucket.keys[i], test) == Ok(Some(n))) ==>
      n in PutAll(Empty(), SignalAssignments(cls, bucket.keys, bucket, test).value).entries
  {
    var verdicts, ps := Assigned(cls, bucket.keys, test), FragmentPins(bucket.keys, bucket);
    var kvs := SignalAssignments(cls, bucket.keys, bucket, test).value;
    var ks := KeysOf(kvs);
    PutAllHasKey(Empty(), kvs, n);
    if exists i | 0 <= i < |bucket.keys| :: Assign(cls, bucket.keys[i], test) == Ok(Some(n)) {
      var i :| 0 <= i < |bucket.keys| && Assign(cls, bucket.keys[i], test) == Ok(Some(n));
      var l := GatherHas(verdicts, ps, i, n);
      assert ks[l] == n;
    }
  }

  /** A fragment no signal accepts adds nothing to a port. */
  lemma RejectedFragmentDropped(cls: InterfaceClass, fragment: string, test: Matcher)
    requires FirstMatching(cls.signals, fragment, test) == Err(KeyError)
    ensures Assign(cls, fragment, test) == Ok(None)
  {
  }

  /** A fragment no partial name can catch gets the same verdict from both matchers. */
  lemma AssignAgrees(cls: InterfaceClass, fragment: string)
    requires forall i | 0 <= i < |cls.signals| && cls.signals[i].Str? ::
      Contains(cls.signals[i].s, fragment) ==> cls.signals[i].s == fragment
    ensures Assign(cls, fragment, WrittenTest) == Assign(cls, fragment, ExactTest)
  {
    MatchersAgreeWithoutPartialNames(cls, fragment);
  }

  /** A bucket none of whose fragments a partial name can catch gets the same pins from both matchers. */
  lemma SignalAssignmentsAgree<P>(cls: InterfaceClass, fragments: seq<string>, bucket: OMap<string, P>)
    requires forall i | 0 <= i < |fragments| :: fragments[i] in bucket.entries
    requires forall k, i | 0 <= k < |fragments| && 0 <= i < |cls.signals| && cls.signals[i].Str? ::
      Contains(cls.signals[i].s, fragments[k]) ==> cls.signals[i].s == fragments[k]
    ensures SignalAssignments(cls, fragments, bucket, WrittenTest) == SignalAssignments(cls, fragments, bucket, ExactTest)
  {
    forall k | 0 <= k < |fragments|
      ensures Assigned(cls, fragments, WrittenTest)[k] == Assigned(cls, fragments, ExactTest)[k]
    {
      AssignAgrees(cls, fragments[k]);
    }
    assert Assigned(cls, fragments, WrittenTest) == Assigned(cls, fragments, ExactTest);
  }

  /**
   * As written, an SPI pin fragment "SI" is filed under MOSI; whole-name
   * matching would skip it.
   */
  lemma SpiFragmentFiledUnderMosi()
    ensures Assign(Spi(), "SI", WrittenTest) == Ok(Some("MOSI"))
    ensures Assign(Spi(), "SI", ExactTest) == Ok(None)
  {
    SubstringMatchesWrongSignal();
  }

  /** A port derived from one bucket: its name and its pins by signal main name. */
  datatype PortSpec<P> = PortSpec(name: string, pins: OMap<string, P>)

  /** The port name: the first leading group, else the interface's name, else ValueError. */
  function PortName(key: seq<string>, name: Option<string>): (r: Result<string>)
    ensures key != [] ==> r == Ok(key[0])
    ensures key == [] && name.Some? ==> r == Ok(name.value)
    ensures r.Err? <==> key == [] && name.None?
    ensures r.Err? ==> r.error == ValueError
  {
    if key != [] then Ok(key[0])
    else if name.Some? then Ok(name.value)
    else Err(ValueError)
  }

  /** The ports of the buckets with the given keys, in order; the first failure stops. */
  function PortsOf<P>(iface: Interface, b: Buckets<P>, keys: seq<seq<string>>, test: Matcher): (r: Result<seq<PortSpec<P>>>)
    requires BucketsValid(b) && forall i | 0 <= i < |keys| :: keys[i] in b.entries
    ensures r.Ok? ==> |r.value| == |keys|
    decreases |keys|
  {
    if keys == [] then Ok([])
    else
      var bucket := b.entries[keys[0]];
      match SignalAssignments(iface.cls, bucket.keys, bucket, test)
      case Err(e) => Err(e)
      case Ok(kvs) =>
        match PortName(keys[0], iface.name)
        case Err(e) => Err(e)
        case Ok(n) =>
          var rest := PortsOf(iface, b, keys[1..], test);
          if rest.Err? then rest else Ok([PortSpec(n, PutAll(Empty(), kvs))] + rest.value)
  }

  /** `PartInstancePort._create_ports`: one port per bucket, in the order the buckets were created. */
  function CreatePorts<P>(iface: Interface, pins: seq<P>, namesOf: P -> seq<string>, test: Matcher): Result<seq<PortSpec<P>>> {
    match Collect(NamePairs(pins, namesOf), iface.regex)
    case Err(e) => Err(e)
    case Ok(b) => PortsOf(iface, b, b.keys, test)
  }

  /**
   * Port k of a successful derivation comes from the k-th bucket: it is
   * named after that bucket's key, and its pins are that bucket's accepted
   * fragments by signal main name.
   */
  lemma {:induction false} PortsOfSpec<P>(iface: Interface, b: Buckets<P>, keys: seq<seq<string>>, k: nat, test: Matcher)
    requires BucketsValid(b) && forall i | 0 <= i < |keys| :: keys[i] in b.entries
    requires PortsOf(iface, b, keys, test).Ok? && k < |keys|
    ensures var port := PortsOf(iface, b, keys, test).value[k];
      var bucket := b.entries[keys[k]];
      PortName(keys[k], iface.name) == Ok(port.name) &&
      SignalAssignments(iface.cls, bucket.keys, bucket, test).Ok? &&
      port.pins == PutAll(Empty(), SignalAssignments(iface.cls, bucket.keys, bucket, test).value)
    decreases |keys|
  {
    PortsOfUnfold(iface, b, keys, test);
    if k > 0 {
      assert keys[1..][k - 1] == keys[k];
      PortsOfSpec(iface, b, keys[1..], k - 1, test);
    }
  }

  /** One step of a successful derivation: the first bucket's port, then the rest. */
  lemma PortsOfUnfold<P>(iface: Interface, b: Buckets<P>, keys: seq<seq<string>>, test: Matcher)
    requires BucketsValid(b) && forall i | 0 <= i < |keys| :: keys[i] in b.entries
    requires PortsOf(iface, b, keys, test).Ok? && keys != []
    ensures var bucket := b.entries[keys[0]];
      var kvs := SignalAssignments(iface.cls, bucket.keys, bucket, test);
      var n := PortName(keys[0], iface.name);
      var rest := PortsOf(iface, b, keys[1..], test);
      kvs.Ok? && n.Ok? && rest.Ok? &&
      PortsOf(iface, b, keys, test).value == [PortSpec(n.value, PutAll(Empty(), kvs.value))] + rest.value
  {
  }

  /** Every derived port's pins form a well-formed ordered map. */
  lemma CreatePortsValid<P>(iface: Interface, pins: seq<P>, namesOf: P -> seq<string>, test: Matcher)
    requires CreatePorts(iface, pins, namesOf, test).Ok?
    ensures forall k | 0 <= k < |CreatePorts(iface, pins, namesOf, test).value| :: CreatePorts(iface, pins, namesOf, test).value[k].pins.Valid()
  {
    var b := Collect(NamePairs(pins, namesOf), iface.regex).value;
    forall k | 0 <= k < |CreatePorts(iface, pins, namesOf, test).value|
      ensures CreatePorts(iface, pins, namesOf, test).value[k].pins.Valid()
    {
      PortsOfSpec(iface, b, b.keys, k, test);
    }
  }

  /** A derivation that succeeds has named every bucket: a bucket with no key needs the interface's name. */
  lemma {:induction false} PortsOfNeedName<P>(iface: Interface, b: Buckets<P>, keys: seq<seq<string>>, test: Matcher)
    requires BucketsValid(b) && forall i | 0 <= i < |keys| :: keys[i] in b.entries
    requires iface.name.None? && [] in keys
    ensures PortsOf(iface, b, keys, test).Err?
    decreases |keys|
  {
    if keys[0] != [] {
      PortsOfNeedName(iface, b, keys[1..], test);
    }
  }

  // ---------------------------------------------------------------------
  // NetBundle construction (pcbdl/base.py:668-691)
  // ---------------------------------------------------------------------

  /** A first signal without a main name in the rest of the signals is the first one overall, when the head has one. */
  lemma FirstMissingShift(signals: seq<Signal>, e: Error)
    requires signals != [] && SignalName(signals[0]).Ok?
    requires exists i | 0 <= i < |signals[1..]| ::
      (forall j | 0 <= j < i :: SignalName(signals[1..][j]).Ok?) && SignalName(signals[1..][i]) == Err(e)
    ensures exists i | 0 <= i < |signals| ::
      (forall j | 0 <= j < i :: SignalName(signals[j]).Ok?) && SignalName(signals[i]) == Err(e)
  {
    var i :| 0 <= i < |signals[1..]| &&
      (forall j | 0 <= j < i :: SignalName(signals[1..][j]).Ok?) && SignalName(signals[1..][i]) == Err(e);
    assert signals[i + 1] == signals[1..][i];
    forall j | 0 <= j < i + 1
      ensures SignalName(signals[j]).Ok?
    {
      if j > 0 {
        assert signals[j] == signals[1..][j - 1];
      }
    }
    assert 0 <= i + 1 < |signals| && SignalName(signals[i + 1]) == Err(e);
  }

  /**
   * The signals' main names and, for each, the name of its net, the prefix
   * and the main name joined by "_": NotImplementedError at a nested
   * interface, IndexError at an empty tuple, the first failure in order.
   */
  function BundleNets(signals: seq<Signal>, prefix: string): (r: Result<seq<(string, string)>>)
    ensures r.Ok? <==> forall i | 0 <= i < |signals| :: SignalName(signals[i]).Ok?
    ensures r.Ok? ==> |r.value| == |signals| && forall i | 0 <= i < |signals| ::
      r.value[i] == (SignalName(signals[i]).value, prefix + "_" + SignalName(signals[i]).value)
    ensures r.Err? ==> exists i | 0 <= i < |signals| ::
      (forall j | 0 <= j < i :: SignalName(signals[j]).Ok?) && SignalName(signals[i]) == Err(r.error)
    decreases |signals|
  {
    if signals == [] then Ok([])
    else
      match SignalName(signals[0])
      case Err(e) => Err(e)
      case Ok(n) =>
        var rest := BundleNets(signals[1..], prefix);
        assert forall i | 1 <= i < |signals| :: signals[1..][i - 1] == signals[i];
        if rest.Err? then
          FirstMissingShift(signals, rest.error);
          rest
        else
          var v := [(n, prefix + "_" + n)] + rest.value;
          assert forall i | 1 <= i < |signals| :: v[i] == rest.value[i - 1];
          Ok(v)
  }

  // ---------------------------------------------------------------------
  // Net classes by name (pcbdl/base.py:212-223)
  // ---------------------------------------------------------------------

  /** `is_net_of_class`: some keyword occurs in the name. An unnamed net is `None`. */
  predicate IsNetOfClass(name: Option<string>, keywords: seq<string>) {
    name.Some? && exists i | 0 <= i < |keywords| :: Contains(name.value, keywords[i])
  }

  predicate IsPower(name: Option<string>) { IsNetOfClass(name, ["VCC", "PP", "VBUS"]) }

  predicate IsGnd(name: Option<string>) { IsNetOfClass(name, ["GND"]) }

  /** A name that lacks the first letter of a keyword does not contain it. */
  lemma MissingLetter(s: string, sub: string)
    requires sub != [] && sub[0] !in s
    ensures !Contains(s, sub)
  {
  }

  /**
   * The placeholder name of an unnamed net, "ANON_NET?m" followed by five
   * lower-case hex digits, is neither a power nor a ground name, which is
   * why an unnamed net is neither here.
   */
  lemma PlaceholderIsNoClass(hex: string)
    requires |hex| == 5 && forall i | 0 <= i < 5 :: hex[i] in "0123456789abcdef"
    ensures !IsPower(Some("ANON_NET?m" + hex)) && !IsGnd(Some("ANON_NET?m" + hex))
  {
    var s := "ANON_NET?m" + hex;
    forall i | 0 <= i < |s|
      ensures s[i] != 'V' && s[i] != 'P' && s[i] != 'G'
    {
      if i < 10 {
        assert s[i] == "ANON_NET?m"[i];
      } else {
        assert s[i] == hex[i - 10];
      }
    }
    MissingLetter(s, "VCC");
    MissingLetter(s, "PP");
    MissingLetter(s, "VBUS");
    MissingLetter(s, "GND");
  }

  /** Anything named with "GND" in it is ground, whatever surrounds it. */
  lemma GndAnywhere(a: string, b: string)
    ensures IsGnd(Some(a + "GND" + b))
  {
    assert OccursAt(a + "GND" + b, ["GND"][0], |a|);
  }
}
