# pcbdl core, modelled in Dafny

pcbdl describes circuit boards in Python. A part class declares its pins
in a `PINS` list. Several class layers may each declare fragments of the
same pin, and fragments that share a name are the same pin. The builder:

- gathers the fragments that share names and resolves each group into one
  class pin;
- when a part is instantiated, makes one pin object per class pin, with
  injected numbers and a checked voltage well;
- derives the part's ports from its interfaces' regular expressions.

Nets collect pins in *connection groups*. `net << pins` answers with a
view of the group it just made, so a chain of shifts keeps extending the
same group. A pin may be given a net only once. A net bundle holds one net
per signal of an interface and connects the matching pins of a port.

The model is split into these modules:

- `Core` (core.dfy): the shared vocabulary. This covers pin types,
  directions, the Python exceptions as an `Error` datatype, `Result` and
  `Option`, ASCII upper-casing, substring tests, decimal numerals and
  order-preserving de-duplication.
- `OrderedMaps` (ordered_maps.dfy): an ordered dictionary as a key
  sequence plus a map. This is `collections.OrderedDict` and the look-up
  that `_PinList` adds to it: by position (negative positions count from
  the end), by main name, or by any alias, case-insensitively.
- `Fragments` (fragments.dfy): `PinFragment` construction and its `==`.
  It also covers the in-place normalisation of shorthand `PINS` entries
  (a method over `array`s) and `gather_fragments`. The latter is a
  reference function `Gather` plus the loop that computes it, with the
  partition and connected-component properties proved.
- `Resolution` (resolve.dfy): `PinFragment.resolve` and the argument
  binding of `PartClassPin`.
- `Interfaces` (interfaces.dfy):
  - `signal_matching_name`, both as written and corrected (see Findings),
    and `signal_name`;
  - the pin bucketing and port derivation of `_create_ports`;
  - the net names of a bundle;
  - the power and ground name tests.
- `Parts` (parts.dfy): part instantiation. This covers
  `_generate_pin_instances` (number injection and the well check) and
  `_generate_port_instances`. Both are written as methods that allocate
  `Pin` and `Port` objects, proved against reference functions.
- `Schematic` (schematic.dfy): the mutable objects, as classes whose
  methods list what they modify.
  - Pins have a write-once `net`, a lazy net getter, and `<<` / `>>`.
  - Nets have `connect` and `_shift` with their views, plus the name,
    connection and class properties.
  - Ports have a write-once `net_bundle`.
  - Net bundles have their construction and `connect`.
  - `get_stuff_to_connect` is modelled as the functions `PinForNet` and
    `UniquePort`.
- `Grouping` (grouping.dfy): methods that replay typical shift and connect
  sequences on fresh objects. They show the connection groups the engine
  builds.

Nothing here is the plugin machinery.

Some modelling choices:

- The part class's method-resolution order is given explicitly, as the
  sequence of `PINS` arrays of its layers.
- A part's `PORTS` attribute is an `Option`, because `base.py` gives
  `Part` no default for it.
- An interface's compiled regular expression is a function parameter.

The operations run the code as written, the two defects under Findings
included. Port derivation uses the substring matcher of
`signal_matching_name`, and `NetBundle.connect` reads `port.interface`
before its `None` test. The derivation takes the matcher as a parameter,
so its properties are proved for both the as-written and the corrected
matcher.

Where the code and its documentation disagree, the model follows the code.
The cases are:

- `gather_fragments` grows each group breadth-first, following
  `pin_index`. A group's fragments are therefore not in declaration order,
  and `resolve` lets the earliest fragment of the group win.
- Net-name matching compares `prefix + pin_name` with no separator between
  them.
- A port is named after the first leading regex group only.
- A shorthand tuple entry in `PINS` is modelled as a tuple of names, and each
  of its items becomes a name.
- Reading `net` on an unconnected pin records that pin with direction IN,
  because the getter evaluates `fresh_net << self`.
- `Net.connect` records a pin in the group before the pin's write-once
  setter can raise, so a rejected pin stays recorded.

## Model

| member | source | states |
|---|---|---|
| Core.UpperIdempotent | pcbdl/base.py:242 | An upper-cased name is upper case. Upper-casing it again changes nothing, and an upper-case name is kept as it is. |
| Core.DecimalRoundTrip | pcbdl/base.py:552 | The injected number `str(i + 1)` reads back as `i + 1`. |
| Core.NatToStringInjective | pcbdl/base.py:552 | Different positions are given different injected numbers. |
| Core.DedupSpec | pcbdl/base.py:301-303 | The de-duplicated names are exactly the names seen, each once, in order of first occurrence. |
| OrderedMaps.Put | pcbdl/base.py:555 | `m[k] = v` maps k to v, keeps the other entries, and appends k to the key order only when k is new. |
| OrderedMaps.Values | pcbdl/base.py:95-96 | The values are listed in key order, one per key. |
| OrderedMaps.PutAllKeys | pcbdl/base.py:766-772 | After a run of assignments, the keys are the old keys followed by the new ones, in order of first assignment. |
| OrderedMaps.PutAllHasKey | pcbdl/base.py:766-772 | After a run of assignments, a key is present exactly when it was present before or was assigned. |
| OrderedMaps.PutAllLastWins | pcbdl/base.py:772 | After a run of assignments, a key holds the value of its last assignment. |
| OrderedMaps.PutAllValueSource | pcbdl/base.py:766-772 | After a run of assignments, every value is the key's old value or one it was assigned. |
| OrderedMaps.At | pcbdl/base.py:82-83 | An integer subscript indexes the values, with negative positions counting from the end. It is an IndexError exactly when out of range. |
| OrderedMaps.FindByAlias | pcbdl/base.py:87-93 | The slow path finds a value exactly when some value has the name among its names, and then it is the first such value. Otherwise it is a KeyError. |
| OrderedMaps.LookupCaseInsensitive | pcbdl/base.py:84-90 | Look-up by name gives the same result whatever the case of the name. |
| OrderedMaps.LookupByAlias | pcbdl/base.py:81-93 | When keys are their value's own names and no name is shared, any alias of value i, in any case, finds value i. |
| Fragments.NewFragment | pcbdl/base.py:239-252 | The names are upper-cased in order, the single `number` is put in front of `numbers`, and the extra arguments are kept. |
| Fragments.NewFragmentUpper | pcbdl/base.py:242 | Every name of a new fragment is upper case. |
| Fragments.SameAsSymmetric | pcbdl/base.py:267-272 | Fragment equality (a shared name) is symmetric. A fragment equals itself exactly when it has a name. |
| Fragments.EntryFragment | pcbdl/base.py:543-545 | A bare name or a tuple entry of names becomes a fragment with those names upper-cased and nothing else. A fragment entry stays itself. |
| Fragments.NormalizedIdempotent | pcbdl/base.py:541-545 | Normalising twice is normalising once. Normalising changes no declared fragment and leaves only fragment entries. |
| Fragments.NormalizeLayer | pcbdl/base.py:543-545 | The PINS array is rewritten in place into its normalised form. |
| Fragments.NormalizeLayers | pcbdl/base.py:541-545 | Every layer's PINS array is rewritten in place into its normalised form. |
| Fragments.FirstSame | pcbdl/base.py:290 | `index` finds the first fragment that shares a name with the searched one, or none when no fragment does. |
| Fragments.GrowMultiset | pcbdl/base.py:288-295 | Growing a group only moves fragments from the rest into the group. |
| Fragments.GatherPartition | pcbdl/base.py:281-296 | Every fragment lands in exactly one group, and no group is empty. |
| Fragments.GatherFragments | pcbdl/base.py:281-296 | The loop yields exactly the groups of the reference function `Gather`. |
| Fragments.GatherLinked | pcbdl/base.py:284-295 | In every group, each fragment after the first shares a name with an earlier fragment. |
| Fragments.GatherSeparated | pcbdl/base.py:281-296 | No fragment of one group shares a name with a fragment of another group. |
| Fragments.GatherComponent | pcbdl/base.py:281-296 | A group holds exactly the fragments reachable from its members through chains of shared names. |
| Fragments.GatherNamesDisjoint | pcbdl/base.py:281-296 | Two different groups never share a name. |
| Fragments.LeftoverIsMinus | pcbdl/base.py:284-295 | For any fragment list, repeated entries included, the first group leaves the fragment list with one copy of each group member removed, always the earliest copy. The order of the rest is kept. |
| Fragments.GatherHead | pcbdl/base.py:284-286 | For any fragment list, repeated entries included, each group starts with the first fragment that no earlier group took. |
| Resolution.Bind | pcbdl/base.py:325-329 | `PartClassPin(names, numbers, *args, **kwargs)` binds when there are at most two extra positional values, no keyword other than `type` and `well`, and no keyword for a slot a positional value already fills. Otherwise it is a TypeError. The type comes from the first positional value, else the keyword, else UNKNOWN; the well likewise from the second, else none. |
| Resolution.SliceAssign | pcbdl/base.py:311 | `args[:len(front)] = front` overwrites the front and keeps the tail. |
| Resolution.OverlaidArgsFrontWins | pcbdl/base.py:307-312 | Each positional slot holds the value of the earliest fragment that gives that slot, and exists exactly when some fragment gives it. |
| Resolution.OverlaidKwargsFrontWins | pcbdl/base.py:307-312 | Each keyword holds the value of the earliest fragment that sets it, and exists exactly when some fragment sets it. |
| Resolution.Resolve | pcbdl/base.py:298-314 | The loop over the reversed fragments, followed by the binding, gives the reference result `Resolved`. |
| Resolution.ResolvedNamesNumbers | pcbdl/base.py:300-305 | A resolved pin's names are the group's names without repetition, in order of first occurrence. Its numbers are all the group's numbers, in order. |
| Resolution.ResolvedTypeAndWell | pcbdl/base.py:307-314 | A resolved pin's type and well come from the earliest fragment that gives them, positionally or by keyword. |
| Resolution.ResolveAll | pcbdl/base.py:547 | Resolving the groups succeeds exactly when every group binds, giving one pin per group in order. Otherwise it is a TypeError. |
| Resolution.GatheredPinsDisjoint | pcbdl/base.py:547 | The class pins resolved from gathered groups share no name. |
| Resolution.ResolveGroups | pcbdl/base.py:547 | The list comprehension over the groups computes `ResolveAll`. |
| Interfaces.FirstMatching | pcbdl/base.py:644-654 | The matcher returns the first signal its test accepts and propagates the first error its test raises. It is a KeyError when every signal is rejected. |
| Interfaces.FirstMatchingSameVerdicts | pcbdl/base.py:644-654 | The matcher's outcome depends only on the test's verdicts on the signals. |
| Interfaces.MatchersAgreeWithoutPartialNames | pcbdl/base.py:644-654 | The as-written and corrected matchers agree whenever no string signal contains the name as a proper part of itself. |
| Interfaces.SubstringMatchesWrongSignal | pcbdl/base.py:648 | As written, the name "SI" is taken for the SPI signal MOSI. The corrected matcher rejects it. |
| Interfaces.SubstringShadowsExactSignal | pcbdl/base.py:646-649 | As written, an earlier signal containing a name shadows the later signal with exactly that name. |
| Interfaces.MainNameFindsSignal | pcbdl/base.py:644-663 | Looking up a signal's main name finds that signal when no earlier signal accepts the name. |
| Interfaces.CollectFails | pcbdl/base.py:755-760 | Bucketing fails, with a ValueError from the unpacking, exactly when some visited name matches with no groups. |
| Interfaces.CollectHas | pcbdl/base.py:755-760 | A bucket holds a signal fragment exactly when some visited name matched with that key and that fragment. |
| Interfaces.CollectHasKey | pcbdl/base.py:754-760 | A bucket exists exactly when some visited name matched with its key. |
| Interfaces.CollectLastWins | pcbdl/base.py:760 | Within a bucket, a signal fragment holds the pin of the last name that matched it. |
| Interfaces.CollectMatches | pcbdl/base.py:753-760 | The nested loop over pins and their names computes the reference bucketing `Collect`. |
| Interfaces.CollectPin | pcbdl/base.py:756-760 | The inner loop files one pin under the match of each of its names. |
| Interfaces.GatherHas | pcbdl/base.py:766-772 | On success, every fragment accepted under a signal name contributes its pin under that name. |
| Interfaces.GatherSource | pcbdl/base.py:766-772 | On success, every contributed entry is some fragment's pin, accepted under that signal name. |
| Interfaces.GatherLast | pcbdl/base.py:766-772 | On success, the last fragment accepted under a signal name contributes its pin under that name after every other entry of that name. |
| Interfaces.PortPinsSpec | pcbdl/base.py:765-772 | For either matcher: a port has a signal main name exactly when some fragment of its bucket is accepted under it. It holds there the pin of the last such fragment, since each assignment overwrites. |
| Interfaces.RejectedFragmentDropped | pcbdl/base.py:767-771 | For either matcher, a fragment that no signal accepts (KeyError) is skipped. |
| Interfaces.AssignAgrees | pcbdl/base.py:644-654 | A fragment that no string signal contains as a proper part gets the same verdict from the as-written and the corrected matcher. |
| Interfaces.SignalAssignmentsAgree | pcbdl/base.py:765-772 | A bucket none of whose fragments a partial name can catch gets the same pins from both matchers. |
| Interfaces.SpiFragmentFiledUnderMosi | pcbdl/base.py:644-654 | As written, an SPI pin fragment "SI" is filed under MOSI. The corrected matcher skips it. |
| Interfaces.PortName | pcbdl/base.py:774-780 | A port is named by the first leading group, else by the interface's name. Without either it is a ValueError. |
| Interfaces.PortsOf | pcbdl/base.py:763-782 | For either matcher, a successful derivation gives one port per bucket. |
| Interfaces.PortsOfSpec | pcbdl/base.py:763-782 | For either matcher, port k comes from bucket k. It is named after that bucket's key, and its pins are the bucket's accepted fragments by signal main name. |
| Interfaces.CreatePortsValid | pcbdl/base.py:765-772 | For either matcher, every derived port's pins form a well-formed ordered map. |
| Interfaces.PortsOfNeedName | pcbdl/base.py:776-780 | For either matcher, a bucket with no key fails the derivation when the interface has no name. |
| Interfaces.BundleNets | pcbdl/base.py:675-690 | The nets of a bundle are named `prefix + "_" + main name`, one per signal. The first nested interface (NotImplementedError) or empty alias tuple (IndexError) stops the whole derivation. |
| Interfaces.PlaceholderIsNoClass | pcbdl/base.py:178-180 | An unnamed net's placeholder name is neither a power name nor a ground name. |
| Interfaces.GndAnywhere | pcbdl/base.py:221-223 | A name with GND anywhere in it is ground. |
| Parts.InstanceNumbersSpec | pcbdl/base.py:552 | An instance pin always has numbers: the declared ones, or else exactly the numeral of its position plus one. |
| Parts.InjectedNumbersDistinct | pcbdl/base.py:552 | Two pins at different positions without declared numbers get different numbers. |
| Parts.WellOf | pcbdl/base.py:363-370 | No well name means no well. A well that is found is a power pin. A well given as a pin type is an AttributeError (`upper` on a non-string). |
| Parts.WellMissing | pcbdl/base.py:363-368 | The well check is a KeyError exactly when no pin made so far bears the well name, in any case. |
| Parts.WellFound | pcbdl/base.py:365-370 | A well name borne by pin i gives pin i when it is a power pin. Otherwise it is a ValueError. |
| Parts.ListOfPins | pcbdl/base.py:549-555 | Pins that share no name are stored in order, each under its first name, and every key is one of its pin's names. |
| Parts.InstanceLookup | pcbdl/base.py:81-93 | In a part's pin list, any alias of pin i (in any case) and position i both give pin i. |
| Parts.MakePins | pcbdl/base.py:549-559 | The pin loop makes fresh, unconnected pins, one per class pin in order. It gives the pin list of those pins, or stops at the first pin whose well check fails, with that error. |
| Parts.AddPin | pcbdl/base.py:551-555 | One pass of the pin loop: at a well check failure (or a pin with no names), that error. Otherwise a fresh, unconnected pin is made from the next class pin and stored under its first name. |
| Parts.MadeInOrderSnoc | pcbdl/base.py:554-555 | Storing one more made pin extends the pin list by one assignment under its first name. |
| Parts.MadeDisjoint | pcbdl/base.py:547-555 | Pins made from class pins that share no name share no name. |
| Parts.PortSpecs | pcbdl/base.py:561-566 | The ports derived for all interface lines with the as-written matcher, in order, each with well-formed pins. |
| Parts.PortSpecsErr | pcbdl/base.py:563-564 | A failure at one interface line is the failure of the whole derivation. |
| Parts.StoreAppend | pcbdl/base.py:563-565 | Storing the ports of two runs of lines one after the other is storing them all. |
| Parts.StoreLastWins | pcbdl/base.py:565 | A name in the port list holds the last port made with that name. |
| Parts.StoreKeys | pcbdl/base.py:565 | Every name in the port list is the name of a port that was made. |
| Parts.MakePorts | pcbdl/base.py:561-566 | No PORTS attribute is an AttributeError. Otherwise the ports are built exactly when the derivation succeeds (with its error otherwise), as fresh ports, one per derived port, stored by name. |
| Parts.DerivePorts | pcbdl/base.py:751-782 | The bucketing loop, then the port derivation with the as-written matcher, computes `CreatePorts` for one interface line. |
| Parts.AddPorts | pcbdl/base.py:564-566 | The inner loop makes one fresh, unbound port per derived port and stores each under its name. |
| Parts.AddLine | pcbdl/base.py:563-566 | One interface line: its derivation error is the derivation's error for all the lines. Otherwise its fresh ports are appended to those of the earlier lines and stored by name. |
| Parts.AllFragmentsNormalized | pcbdl/base.py:541-547 | Normalising the layers does not change the fragments they declare together. |
| Parts.DeclaredFragments | pcbdl/base.py:283 | `all_fragments` is every layer's fragments, layer by layer. |
| Parts.Instantiate | pcbdl/base.py:549-566 | From resolved class pins, the part is built exactly as the reference `PartSpec` says: made pins, their pin list, and the ports stored by name. Otherwise it has the first error of the pin loop or the port derivation. |
| Parts.ResolveLayers | pcbdl/base.py:541-547 | Each layer's PINS entries are normalised in place, and the class pins are the resolution of the gathered fragments: a TypeError when a group does not bind, otherwise pins sharing no name. |
| Parts.NewPart | pcbdl/base.py:538-566 | The PINS layers are normalised in place. A group that does not bind is a TypeError. Otherwise the part, its fresh pins and its ports are as `PartSpec` says, with the matching mode given. |
| Schematic.Pin.constructor | pcbdl/base.py:349-357 | A new instance pin carries its names, numbers, type and well, and has no net. |
| Schematic.Pin.SetNet | pcbdl/base.py:386-394 | The first net assignment sticks. A later one is a ValueError and keeps the net. |
| Schematic.Pin.GetNet | pcbdl/base.py:374-385 | A connected pin answers with its net. An unconnected one stores a fresh unnamed net whose only group is {pin: IN}, and answers with that net's view of the group. |
| Schematic.Pin.Connect | pcbdl/base.py:396-397 | `pin.connect` connects the targets through the net the getter answers with. Unconnected, they join the fresh group {pin: IN}. The recorded pins then hold that net (the stored net, or the fresh net's view), and the other pins keep theirs. |
| Schematic.Pin.ConnectStored | pcbdl/base.py:396-397 | On a connected pin, `connect` extends the stored net's slot with the recorded targets, which then hold the stored net. |
| Schematic.Pin.ConnectFresh | pcbdl/base.py:381-397 | On an unconnected pin, `connect` makes one fresh group holding the pin and then the recorded targets. The recorded pins hold the getter's view of that group. |
| Schematic.Pin.ShiftFrom | pcbdl/base.py:399-415 | `pin << xs` or `pin >> xs`: the pin takes the direction opposite the operator's and the targets the operator's, all in one group. The result is success exactly when every target resolves and connects. |
| Schematic.Pin.ShiftStored | pcbdl/base.py:400-406 | On a connected pin, the shift runs on the stored net. |
| Schematic.Pin.ShiftFresh | pcbdl/base.py:401-415 | On an unconnected pin, a single fresh group holds the pin and then the targets, and the answer is the view of that group. |
| Schematic.Pin.OpenNet | pcbdl/base.py:404-405 | `net = Net(); net >>= pin` stores a fresh base net with the one group {pin: dir} and gives its view. |
| Schematic.Away | pcbdl/base.py:405 | The pin on the left of a shift gets the other direction than the targets (never UNKNOWN). |
| Schematic.Net.constructor | pcbdl/base.py:105-108 | A new net has no groups and the upper-cased name, or no name. |
| Schematic.Net.View | pcbdl/base.py:146-148 | `_shift`'s copy stands for the base net's last group and shares its name. |
| Schematic.Net.SetName | pcbdl/base.py:184-187 | The name setter stores the upper-cased name. |
| Schematic.Net.Connect | pcbdl/base.py:112-137 | The targets resolve in order, and their pins are recorded in a new group (or in the view's group). Each pin is given the net until the first conflict. The outcome is that conflict's ValueError, else the first resolution error, else success. |
| Schematic.Net.Shift | pcbdl/base.py:139-155 | `_shift` connects and answers with a fresh view of the new group on a base net, or with itself on a view. When the connect raises, it gives the error. |
| Schematic.Attach | pcbdl/base.py:119-135 | The recording loop records the pins up to and including the first conflict, and gives the earlier pins the net. |
| Schematic.AttachOne | pcbdl/base.py:134-135 | `group[pin] = dir`, then the write-once `pin.net = owner`. |
| Schematic.PickByNetNameSpec | pcbdl/base.py:599-608 | Net-name matching picks a pin exactly when one of its names equals the net name, alone or behind the prefix, and then the first such pin. Otherwise it is a ValueError. |
| Schematic.PinForReachable | pcbdl/base.py:119-132 | A target resolves only to itself or to one of its part's pins. |
| Schematic.PlanOfSpec | pcbdl/base.py:119-132 | Pin i is what target i resolves to, and resolution stops at the first target that fails, with its error. |
| Schematic.PlanPinsReachable | pcbdl/base.py:119-132 | Every resolved pin is reachable from its target. |
| Schematic.FirstConflictSpec | pcbdl/base.py:134-135 | Before the first conflict no pin was connected or repeated. The pin at the conflict was one or the other. |
| Schematic.PlanOfPins | pcbdl/base.py:125-126 | Pins given directly resolve to themselves. |
| Schematic.PortsOfClassMembers | pcbdl/base.py:612 | The filter keeps exactly the ports of the bundle's interface class, in order. |
| Schematic.PortsOfClassTwo | pcbdl/base.py:612-616 | Two ports of the class at different positions both survive the filter. |
| Schematic.PortsOfClassPair | pcbdl/base.py:612-616 | Two or more survivors come from two positions holding ports of the class. |
| Schematic.UniquePortSpec | pcbdl/base.py:599-623 | A part supplies a port to a bundle exactly when it is not in net-name mode and exactly one of its ports has the class, and that port is the answer. Net-name mode is an AttributeError; no port or several ports is a ValueError. |
| Schematic.PinTargetNoPort | pcbdl/base.py:708-712 | A pin given to a bundle is an AttributeError as written and a TypeError as intended. |
| Schematic.PortForSpec | pcbdl/base.py:699-712 | A resolved port always has the bundle's class, and a port of another class is a TypeError. The two versions differ only on targets with no port. |
| Schematic.StepsOfSpec | pcbdl/base.py:715-718 | Step i is signal i's net and port pin. The steps stop at the first look-up that fails. |
| Schematic.StepsOfBase | pcbdl/base.py:717 | Every step's net is one of the bundle's nets, and a base net. |
| Schematic.StepsDistinct | pcbdl/base.py:715-719 | Signals with different main names reach different nets of a valid bundle. |
| Schematic.AddedDistinct | pcbdl/base.py:715-719 | When the step nets are all different, each gets exactly one group: its own step's pin alone. |
| Schematic.ConnectPin | pcbdl/base.py:719 | `net.connect(pin)` on a base net appends the one-pin group and gives the pin the net, or raises ValueError when the pin has one. |
| Schematic.ConnectSignals | pcbdl/base.py:715-719 | Each step net gains the groups its steps give, and the first k pins hold their step's net, where k is the first conflict. |
| Schematic.Port.constructor | pcbdl/base.py:784-788 | A new port carries its name, pins and interface, and no bundle. |
| Schematic.Port.SetNetBundle | pcbdl/base.py:798-802 | The first bundle assignment sticks. A later one is a ValueError and keeps the bundle. |
| Schematic.NetBundle.Connect | pcbdl/base.py:695-723 | The targets go through in order, each one's port having the bundle's class, and the ports are recorded and bound to the bundle. The first failing target stops the loop with its error: TypeError on a mismatch, AttributeError on a target with no port, as written. A mismatch at the first target leaves the bundle's ports and nets unchanged. For a single target, the signal loop's effect is as in `ConnectOne`. |
| Schematic.NetBundle.ConnectOne | pcbdl/base.py:696-723 | One target, with its port looked up as written: a failed look-up changes nothing and gives its error. Otherwise each step net gains its one-pin group, and the pins before the first conflict hold their nets. A look-up failure is a KeyError or an error from the pin list, and a conflict is a ValueError; either stops the loop and leaves the port unrecorded. With no failure the port is bound (ValueError if already bound) and recorded. |
| Schematic.NetBundle.Record | pcbdl/base.py:721-723 | After the signals, the port's bundle is set and the port recorded. A bound port is a ValueError. |
| Schematic.NetBundle.ConnectPort | pcbdl/base.py:714-723 | The signal loop for one port: look-ups in order, the one-pin connects, then the bookkeeping. |
| Schematic.NewBundle | pcbdl/base.py:668-693 | Construction fails exactly when the signals' net names do. Otherwise there is one fresh, unconnected base net per signal main name, each named after the prefix and that name, with the keys in first-occurrence order. |
| Schematic.AddNet | pcbdl/base.py:688-690 | `self[name] = Net(prefix + "_" + name)` adds one fresh net and keeps different keys on different nets. |
| Schematic.BundleKeys | pcbdl/base.py:675-690 | The bundle's keys are the signals' main names, each once, in order. |
| Schematic.FirstMissingName | pcbdl/base.py:675-686 | The first signal without a main name decides the constructor's error. |
| Grouping.ConnectionsFlatten | pcbdl/base.py:189-210 | Every pin of every group is among the net's connections. |
| Grouping.FreshPinsAttach | pcbdl/base.py:119-135 | Pins that are unconnected and distinct all connect and are all recorded. |
| Grouping.SeparateShifts | pcbdl/base.py:139-155 | `net << (a, b)` and then `net << c` leave two groups, `(a, b)` and `(c,)`, with all three pins on the net. |
| Grouping.ShiftFreshPins | pcbdl/base.py:139-155 | A shift of fresh, distinct pins succeeds, records them in order in the slot, gives them the net, and answers with the view. |
| Grouping.ChainedShifts | pcbdl/base.py:142-149 | `net << a << b` puts both pins in one group, and the view keeps the net's name. |
| Grouping.ConnectThroughPin | pcbdl/base.py:374-397 | On an unconnected pin, `p.connect(q, dir)` leaves one group {p: IN, q: dir}, and q holds the view of that group. |
| Grouping.TwoStepGroup | pcbdl/base.py:134 | Two pins recorded one after the other keep that order in the group. |
| Grouping.ExtendView | pcbdl/base.py:142-143 | `view << p` extends the view's own group and gives p the view. |

## Left out

- The plugin hooks (`Plugin.init` calls and plugin-supplied attributes) are not modelled.
- An unnamed net's placeholder name uses the object's address. The model keeps the name as `None`, and `PlaceholderIsNoClass` shows that every placeholder is neither a power nor a ground name.
- `__repr__` and `__str__` are not modelled. They only format text.
- The regular-expression engine is not modelled: an interface's compiled regex is an uninterpreted function from a name to its capture groups.
- The walk over `type(part).__mro__` (`part_superclasses`) is not modelled. The layers are given explicitly, as the sequence of their PINS arrays.
- The `__dict__` injections (pins, ports and bundle nets as attributes) are not modelled, and neither are the name collisions they can cause. The injections write into the same `__dict__` the core reads from. A pin named PORTS (line 559) shadows the `PORTS` that line 563 reads. A port signal named `pins` (line 787) replaces the `port.pins` that line 718 reads.
- The `copy.copy` in `_shift` is modelled as an explicit view object (a parent net plus a group number). Other attributes of the copied net are not copied.
- Part values, part numbers, reference designators, packages and the populated flag (`Part.__init__`, lines 512-531) are not modelled, and neither is the `part` back-reference of pins.
- The class attribute `self.__class__.pins` is not modelled as shared state. It is recomputed for each instance and not observed elsewhere in the core.
- Nested interfaces and net-to-net connections are modelled only as the errors they raise.
- A `Target` sequence stands for what `_maybe_single(others)` yields. A bare `NetBundle` is itself an `OrderedDict`, so `_maybe_single` yields its string keys. Thus `b1 << b2` raises AttributeError at line 708 (and does nothing for an empty `b2`), and `net << b` raises TypeError at line 132. The model has no target for such a string key, so these spellings are not modelled. `BundleT` (NotImplementedError) is a bundle inside a tuple or list.
- Core.Upper: upper-cases ASCII letters only. Python's `str.upper` also maps other letters ('ß' becomes "SS", 'é' becomes 'É'), so names with non-ASCII letters are not modelled faithfully.
- A regex group that did not take part in the match is `None` in Python (`None in "MOSI"` then raises TypeError at line 648). The regex function's type `string -> Option<seq<string>>` gives every group a string, so this case is not modelled.
- Schematic.NetBundle.Connect: states the nets' new groups and the pins' new nets only for a single target (`ConnectOne` states them for each call). With several targets, later targets may touch the same nets and pins, so the per-target effects are not stated.
- Fragments.FirstSame: compares fragments only by `__eq__` (a shared name). `list.index` at line 290 also accepts the very same object before it calls `__eq__`. The model has no object identity, because fragments are values. So a nameless fragment listed twice, as when a subclass without PINS walks its parent's list a second time, forms two groups `[[E], [E]]` where the code forms one group `[[E, E]]`. The part cannot tell the difference. Every earlier group is the same, the groups bind alike, and the part then raises IndexError at that same pin position for its missing name (line 555).
- Fragments.EntryFragment: a tuple entry is a tuple of names. In the code, a tuple item that is not a string (such as a pin type in `("GND", "1", PinType.POWER_INPUT)`) makes `name.upper()` at line 242 raise AttributeError while line 545 normalises the list. The entry type cannot hold such an item, so this error path is left out.
- Parts.MakePorts: `_create_ports` is a generator, so ports built before a failing line are stored before the exception. The model drops the ports on failure, because the exception also aborts the part's construction and nothing keeps them.
- Parts.MadeAs: compares a made port's interface by class and name only, not by its regex, because a function-valued field has no equality in Dafny.
- The `direction` and `pin_type` arguments of `NetBundle.connect` are not modelled, since its signal loop never uses them.
- The `assert` on pin numbers at line 361 is not modelled. It can never fail after number injection (`Parts.InstanceNumbersSpec`).

## Findings

| source | as written | input that shows it | evidently intended | confidence | as-written member | corrected member |
|---|---|---|---|---|---|---|
| pcbdl/base.py:648 | `name in signal` on a string signal is a substring test | Signals of SPI, pin fragment "SI": it matches MOSI | A string signal matches only its own name, and a tuple matches any of its names | not executed | Interfaces.SignalMatchingNameAsWritten (Interfaces.SubstringMatchesWrongSignal, Interfaces.SubstringShadowsExactSignal, Interfaces.SpiFragmentFiledUnderMosi) | Interfaces.SignalMatchingName (Interfaces.AssignAgrees) |
| pcbdl/base.py:708-712 | `port.interface` is read before `port is None` is tested | `bundle.connect(pin)` for a part pin: AttributeError on `None.interface` | TypeError "Don't know how to get … port" | not executed | Schematic.PortForAsWritten (Schematic.PinTargetNoPort) | Schematic.PortFor |
