// Shared vocabulary of the schematic builder: the two enumerations, the
// exception kinds the builder raises, failure-carrying wrappers, and the
// small string and sequence helpers the other modules are written with.
module Core {

  /** Electrical role of a pin (PinType in the source). */
  datatype PinType =
    | Unknown | Primary | Secondary | PowerInput | PowerOutput | Ground | Input | Output

  /** Direction recorded for a pin inside one connection group. */
  datatype ConnectDirection = DirUnknown | DirIn | DirOut

  /** The Python exception classes the builder raises. */
  datatype Error =
    | KeyError | ValueError | TypeError | AttributeError | IndexError | NotImplementedError

  datatype Option<+T> = None | Some(value: T)

  /** A value, or the exception that the source raises instead of returning it. */
  datatype Result<+T> = Ok(value: T) | Err(error: Error)

  /** Success without a value, or the exception raised. */
  datatype Outcome = Pass | Fail(error: Error)

  // ---------------------------------------------------------------------
  // Upper-casing (str.upper restricted to ASCII letters)
  // ---------------------------------------------------------------------

  function UpperChar(c: char): char {
    if 'a' <= c <= 'z' then (c as int - 'a' as int + 'A' as int) as char else c
  }

  /** `s.upper()`: every ASCII lower-case letter replaced by its capital. */
  function Upper(s: string): (u: string)
    ensures |u| == |s|
    ensures forall i :: 0 <= i < |s| ==> u[i] == UpperChar(s[i])
  {
    seq(|s|, i requires 0 <= i < |s| => UpperChar(s[i]))
  }

  predicate IsUpper(s: string) {
    forall i :: 0 <= i < |s| ==> !('a' <= s[i] <= 'z')
  }

  /** Upper-casing leaves an upper-case string alone and is idempotent. */
  lemma UpperIdempotent(s: string)
    ensures IsUpper(Upper(s))
    ensures Upper(Upper(s)) == Upper(s)
    ensures IsUpper(s) ==> Upper(s) == s
  {
    assert forall i :: 0 <= i < |s| ==> UpperChar(UpperChar(s[i])) == UpperChar(s[i]);
  }

  /** Python's `sub in s` for two strings: `sub` occurs contiguously in `s`. */
  predicate Contains(s: string, sub: string) {
    exists i | 0 <= i <= |s| - |sub| :: OccursAt(s, sub, i)
  }

  predicate OccursAt(s: string, sub: string, i: int) {
    0 <= i <= |s| - |sub| && s[i..i + |sub|] == sub
  }

  // ---------------------------------------------------------------------
  // str(n) for natural numbers, with its inverse
  // ---------------------------------------------------------------------

  predicate IsDigit(c: char) { '0' <= c <= '9' }

  function DigitChar(d: nat): (c: char)
    requires d < 10
    ensures IsDigit(c) && c as int - '0' as int == d
  {
    ('0' as int + d) as char
  }

  /** `str(n)`: the decimal numeral of `n`, without leading zeros. */
  function NatToString(n: nat): (s: string)
    ensures |s| > 0
    ensures forall i :: 0 <= i < |s| ==> IsDigit(s[i])
    ensures s[0] == '0' ==> n == 0
    decreases n
  {
    if n < 10 then [DigitChar(n)] else NatToString(n / 10) + [DigitChar(n % 10)]
  }

  /** The value of a numeral (the inverse of NatToString). */
  function ParseDecimal(s: string): nat
    requires forall i :: 0 <= i < |s| ==> IsDigit(s[i])
    decreases |s|
  {
    if s == [] then 0
    else
      assert IsDigit(s[|s| - 1]);
      10 * ParseDecimal(s[..|s| - 1]) + (s[|s| - 1] as int - '0' as int)
  }

  lemma {:induction false} DecimalRoundTrip(n: nat)
    ensures ParseDecimal(NatToString(n)) == n
    decreases n
  {
    if n >= 10 {
      var s := NatToString(n);
      assert s[..|s| - 1] == NatToString(n / 10);
      DecimalRoundTrip(n / 10);
    }
  }

  /** Distinct positions receive distinct injected pin numbers. */
  lemma NatToStringInjective(m: nat, n: nat)
    requires NatToString(m) == NatToString(n)
    ensures m == n
  {
    DecimalRoundTrip(m);
    DecimalRoundTrip(n);
  }

  // ---------------------------------------------------------------------
  // Sequences
  // ---------------------------------------------------------------------

  /** `sum(groups, ())` / a nested comprehension: the concatenation of all parts in order. */
  function Flatten<T>(ss: seq<seq<T>>): seq<T>
    decreases |ss|
  {
    if ss == [] then [] else ss[0] + Flatten(ss[1..])
  }

  lemma {:induction false} FlattenAppend<T>(a: seq<seq<T>>, b: seq<seq<T>>)
    ensures Flatten(a + b) == Flatten(a) + Flatten(b)
    decreases |a|
  {
    if a == [] {
      assert a + b == b;
    } else {
      assert (a + b)[0] == a[0];
      assert (a + b)[1..] == a[1..] + b;
      FlattenAppend(a[1..], b);
    }
  }

  /** An element of the flattening belongs to one of the parts, and conversely. */
  lemma {:induction false} FlattenMembers<T>(ss: seq<seq<T>>, x: T)
    ensures x in Flatten(ss) <==> exists i :: 0 <= i < |ss| && x in ss[i]
    decreases |ss|
  {
    if ss != [] {
      FlattenMembers(ss[1..], x);
      if x in Flatten(ss[1..]) {
        var i :| 0 <= i < |ss[1..]| && x in ss[1..][i];
        assert x in ss[i + 1];
      }
      if exists i :: 0 <= i < |ss| && x in ss[i] {
        var i :| 0 <= i < |ss| && x in ss[i];
        if i > 0 { assert x in ss[1..][i - 1]; }
      }
    }
  }

  predicate NoDup<T(==)>(s: seq<T>) {
    forall i, j :: 0 <= i < j < |s| ==> s[i] != s[j]
  }

  /** Position of the first occurrence of `x` in `s`. */
  function FirstIndex<T(==)>(s: seq<T>, x: T): (k: nat)
    requires x in s
    ensures k < |s| && s[k] == x
    ensures forall j :: 0 <= j < k ==> s[j] != x
  {
    if s[0] == x then 0 else 1 + FirstIndex(s[1..], x)
  }

  /**
   * The comprehension `[n for n in s if not (n in seen or seen.add(n))]`:
   * the elements of `s` not in `seen`, each kept at its first occurrence.
   */
  function DedupSeen<T(==)>(s: seq<T>, seen: set<T>): seq<T>
    decreases |s|
  {
    if s == [] then []
    else if s[0] in seen then DedupSeen(s[1..], seen)
    else [s[0]] + DedupSeen(s[1..], seen + {s[0]})
  }

  function Dedup<T(==)>(s: seq<T>): seq<T> {
    DedupSeen(s, {})
  }

  lemma {:induction false} DedupSeenMember<T>(s: seq<T>, seen: set<T>, x: T)
    ensures x in DedupSeen(s, seen) <==> x in s && x !in seen
    decreases |s|
  {
    if s != [] {
      if s[0] in seen {
        DedupSeenMember(s[1..], seen, x);
      } else {
        DedupSeenMember(s[1..], seen + {s[0]}, x);
      }
    }
  }

  lemma {:induction false} DedupSeenNoDup<T>(s: seq<T>, seen: set<T>)
    ensures NoDup(DedupSeen(s, seen))
    decreases |s|
  {
    if s != [] {
      if s[0] in seen {
        DedupSeenNoDup(s[1..], seen);
      } else {
        var tail := DedupSeen(s[1..], seen + {s[0]});
        DedupSeenNoDup(s[1..], seen + {s[0]});
        DedupSeenMember(s[1..], seen + {s[0]}, s[0]);
        assert DedupSeen(s, seen) == [s[0]] + tail;
      }
    }
  }

  /** De-duplication leaves a repetition-free sequence that avoids `seen` as it is. */
  lemma {:induction false} DedupSeenOfNoDup<T>(s: seq<T>, seen: set<T>)
    requires NoDup(s) && forall i | 0 <= i < |s| :: s[i] !in seen
    ensures DedupSeen(s, seen) == s
    decreases |s|
  {
    if s != [] {
      assert forall i | 0 <= i < |s[1..]| :: s[1..][i] == s[i + 1] && s[i + 1] != s[0];
      DedupSeenOfNoDup(s[1..], seen + {s[0]});
    }
  }

  lemma FirstIndexTail<T>(s: seq<T>, x: T)
    requires s != [] && x in s[1..] && x != s[0]
    ensures FirstIndex(s, x) == 1 + FirstIndex(s[1..], x)
  {
  }

  lemma {:induction false} DedupSeenOrderAt<T>(s: seq<T>, seen: set<T>, i: nat, j: nat)
    requires i < j < |DedupSeen(s, seen)|
    ensures DedupSeen(s, seen)[i] in s && DedupSeen(s, seen)[j] in s
    ensures FirstIndex(s, DedupSeen(s, seen)[i]) < FirstIndex(s, DedupSeen(s, seen)[j])
    decreases |s|
  {
    var r := DedupSeen(s, seen);
    if s[0] in seen {
      var tail := DedupSeen(s[1..], seen);
      assert r == tail;
      DedupSeenMember(s[1..], seen, tail[i]);
      DedupSeenMember(s[1..], seen, tail[j]);
      FirstIndexTail(s, tail[i]);
      FirstIndexTail(s, tail[j]);
      DedupSeenOrderAt(s[1..], seen, i, j);
    } else {
      var seen' := seen + {s[0]};
      var tail := DedupSeen(s[1..], seen');
      assert r == [s[0]] + tail;
      assert r[j] == tail[j - 1];
      DedupSeenMember(s[1..], seen', tail[j - 1]);
      FirstIndexTail(s, tail[j - 1]);
      if i > 0 {
        assert r[i] == tail[i - 1];
        DedupSeenMember(s[1..], seen', tail[i - 1]);
        FirstIndexTail(s, tail[i - 1]);
        DedupSeenOrderAt(s[1..], seen', i - 1, j - 1);
      }
    }
  }

  /**
   * Order-preserving de-duplication keeps exactly the distinct elements of
   * its input, without repetition, in the order of their first occurrences.
   */
  lemma DedupSpec<T>(s: seq<T>)
    ensures forall x :: x in Dedup(s) <==> x in s
    ensures NoDup(Dedup(s))
    ensures forall i, j :: 0 <= i < j < |Dedup(s)| ==>
      FirstIndex(s, Dedup(s)[i]) < FirstIndex(s, Dedup(s)[j])
  {
    forall x ensures x in Dedup(s) <==> x in s { DedupSeenMember(s, {}, x); }
    DedupSeenNoDup(s, {});
    forall i, j | 0 <= i < j < |Dedup(s)|
      ensures FirstIndex(s, Dedup(s)[i]) < FirstIndex(s, Dedup(s)[j])
    {
      DedupSeenOrderAt(s, {}, i, j);
    }
  }

  /**
   * `s` with the elements of `m` taken out, one occurrence per element of
   * `m` and the earliest occurrences first; the order of what stays is kept.
   */
  function Minus<T(==)>(s: seq<T>, m: multiset<T>): (r: seq<T>)
    ensures multiset(r) == multiset(s) - m
    decreases |s|
  {
    if s == [] then []
    else if s[0] in m then
      assert multiset(s) == multiset{s[0]} + multiset(s[1..]) by { assert s == [s[0]] + s[1..]; }
      Minus(s[1..], m - multiset{s[0]})
    else
      assert multiset(s) == multiset{s[0]} + multiset(s[1..]) by { assert s == [s[0]] + s[1..]; }
      [s[0]] + Minus(s[1..], m)
  }

  lemma {:induction false} MinusNothing<T>(s: seq<T>)
    ensures Minus(s, multiset{}) == s
    decreases |s|
  {
    if s != [] {
      MinusNothing(s[1..]);
    }
  }

  /** Taking out `a` and then `b` is taking out `a + b`. */
  lemma {:induction false} MinusMinus<T>(s: seq<T>, a: multiset<T>, b: multiset<T>)
    ensures Minus(Minus(s, a), b) == Minus(s, a + b)
    decreases |s|
  {
    if s != [] {
      var x, t := s[0], s[1..];
      if x in a {
        assert Minus(s, a) == Minus(t, a - multiset{x});
        assert Minus(s, a + b) == Minus(t, a + b - multiset{x});
        LessOneFirst(a, b, x);
        MinusMinus(t, a - multiset{x}, b);
      } else if x in b {
        var w := Minus(s, a);
        assert w == [x] + Minus(t, a);
        assert w[0] == x && w[1..] == Minus(t, a);
        assert Minus(w, b) == Minus(Minus(t, a), b - multiset{x});
        assert Minus(s, a + b) == Minus(t, a + b - multiset{x});
        LessOneSecond(a, b, x);
        MinusMinus(t, a, b - multiset{x});
      } else {
        var w := Minus(s, a);
        assert w == [x] + Minus(t, a);
        assert w[0] == x && w[1..] == Minus(t, a);
        assert Minus(w, b) == [x] + Minus(Minus(t, a), b);
        assert Minus(s, a + b) == [x] + Minus(t, a + b);
        MinusMinus(t, a, b);
      }
    }
  }

  lemma LessOneFirst<T>(a: multiset<T>, b: multiset<T>, x: T)
    requires x in a
    ensures a - multiset{x} + b == a + b - multiset{x}
  {
  }

  lemma LessOneSecond<T>(a: multiset<T>, b: multiset<T>, x: T)
    requires x in b
    ensures a + (b - multiset{x}) == a + b - multiset{x}
  {
  }

  /** Deleting position `i` where `s[i]` occurs first takes out one `s[i]`. */
  lemma {:induction false} RemoveFirstIsMinus<T>(s: seq<T>, i: nat)
    requires i < |s| && forall j | 0 <= j < i :: s[j] != s[i]
    ensures s[..i] + s[i + 1..] == Minus(s, multiset{s[i]})
    decreases |s|
  {
    if i == 0 {
      assert s[..0] + s[1..] == s[1..];
      assert multiset{s[0]} - multiset{s[0]} == multiset{};
      MinusNothing(s[1..]);
    } else {
      assert s[1..][i - 1] == s[i];
      assert forall j | 0 <= j < i - 1 :: s[1..][j] == s[j + 1];
      RemoveFirstIsMinus(s[1..], i - 1);
      assert s[0] != s[i];
      assert s[..i] + s[i + 1..] == [s[0]] + (s[1..][..i - 1] + s[1..][i..]);
    }
  }
}
