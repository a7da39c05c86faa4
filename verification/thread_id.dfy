/**
 * Logical thread identifiers: a non-empty byte string that a thread can
 * fork (append a 0 byte) to name a child thread, or increment (bump the
 * last byte) to name the next sibling.  Identifiers are ordered
 * lexicographically, shorter prefixes first, as a derived ordering on
 * byte slices is.
 */
module ThreadIds {
  import opened Wrappers

  type Byte = b: int | 0 <= b < 256

  /** An identifier always holds at least one byte. */
  type ThreadId = s: seq<Byte> | |s| >= 1 witness [0]

  /** The root thread's identifier. */
  function Default(): (r: ThreadId)
    ensures |r| == 1 && r[0] == 0
  {
    [0]
  }

  function New(id: Byte): (r: ThreadId)
    ensures |r| == 1 && r[0] == id
  {
    [id]
  }

  /** Lexicographic order on byte strings; a proper prefix comes first. */
  predicate Less(a: seq<Byte>, b: seq<Byte>)
  {
    if |a| == 0 then |b| > 0
    else if |b| == 0 then false
    else a[0] < b[0] || (a[0] == b[0] && Less(a[1..], b[1..]))
  }

  lemma {:induction false} LessIrreflexive(a: seq<Byte>)
    ensures !Less(a, a)
    decreases |a|
  {
    if |a| > 0 {
      LessIrreflexive(a[1..]);
    }
  }

  /** A proper prefix is smaller than any of its extensions. */
  lemma {:induction false} PrefixLess(a: seq<Byte>, b: seq<Byte>)
    requires |a| < |b| && b[..|a|] == a
    ensures Less(a, b)
    decreases |a|
  {
    if |a| > 0 {
      assert a[0] == b[0];
      assert b[1..][..|a| - 1] == a[1..];
      PrefixLess(a[1..], b[1..]);
    }
  }

  /** Two strings that agree up to position k and differ first at k are ordered by that byte. */
  lemma {:induction false} FirstDifferenceLess(a: seq<Byte>, b: seq<Byte>, k: nat)
    requires k < |a| && k < |b| && a[..k] == b[..k] && a[k] < b[k]
    ensures Less(a, b)
    decreases k
  {
    if k > 0 {
      assert a[0] == a[..k][0] == b[..k][0] == b[0];
      assert a[1..][..k - 1] == a[..k][1..] == b[..k][1..] == b[1..][..k - 1];
      FirstDifferenceLess(a[1..], b[1..], k - 1);
    }
  }

  /** The child identifier: the parent's bytes followed by a 0 byte. */
  function Fork(t: ThreadId): (r: ThreadId)
    ensures |r| == |t| + 1 && Less(t, r)
  {
    PrefixLess(t, t + [0]);
    t + [0]
  }

  /** A child keeps its parent as a prefix, ends in 0, and sorts after the parent. */
  lemma ForkExtends(t: ThreadId)
    ensures Fork(t)[..|t|] == t && Fork(t)[|t|] == 0
    ensures Less(t, Fork(t)) && !Less(Fork(t), t)
  {
    PrefixLess(t, Fork(t));
    if Less(Fork(t), t) {
      LessPrefixNot(t, Fork(t));
    }
  }

  /** An extension is never smaller than its prefix. */
  lemma {:induction false} LessPrefixNot(a: seq<Byte>, b: seq<Byte>)
    requires |a| <= |b| && b[..|a|] == a
    ensures !Less(b, a)
    decreases |a|
  {
    if |a| > 0 {
      assert a[0] == b[0];
      assert b[1..][..|a| - 1] == a[1..];
      LessPrefixNot(a[1..], b[1..]);
    }
  }

  /** Distinct parents have distinct children. */
  lemma ForkInjective(a: ThreadId, b: ThreadId)
    ensures Fork(a) == Fork(b) ==> a == b
  {
    if Fork(a) == Fork(b) {
      assert a == Fork(a)[..|a|] == Fork(b)[..|b|] == b;
    }
  }

  /**
   * The increment as the source writes it: the overflow check on the last
   * byte is performed but its result is thrown away, so the identifier that
   * comes back is the input itself.
   */
  function IncrementAsWritten(t: ThreadId): (r: Option<ThreadId>)
    ensures r.None? <==> t[|t| - 1] == 255
  {
    if t[|t| - 1] == 255 then None else Some(t)
  }

  /** The as-written increment hands the root thread its own identifier again. */
  lemma IncrementAsWrittenRepeats()
    ensures IncrementAsWritten(Default()) == Some(Default())
    ensures !Less(Default(), IncrementAsWritten(Default()).value)
  {
    LessIrreflexive(Default());
  }

  /** The increment the documentation describes: the last byte goes up by one. */
  function Increment(t: ThreadId): (r: Option<ThreadId>)
    ensures r.None? <==> t[|t| - 1] == 255
    ensures r.Some? ==> |r.value| == |t| && r.value[..|t| - 1] == t[..|t| - 1]
                        && r.value[|t| - 1] == t[|t| - 1] + 1
  {
    var n := |t|;
    if t[n - 1] == 255 then None else Some(t[..n - 1] + [t[n - 1] + 1])
  }

  /** A successful increment yields a strictly larger, hence different, identifier. */
  lemma IncrementGreater(t: ThreadId)
    requires Increment(t).Some?
    ensures Less(t, Increment(t).value) && Increment(t).value != t
  {
    var u := Increment(t).value;
    assert u[..|t| - 1] == t[..|t| - 1];
    FirstDifferenceLess(t, u, |t| - 1);
  }

  /** Forking then incrementing names a sibling of the child that is distinct from it and from the parent. */
  lemma ForkThenIncrement(t: ThreadId)
    ensures Increment(Fork(t)).Some?
    ensures Increment(Fork(t)).value[..|t|] == t
    ensures Increment(Fork(t)).value != Fork(t) && Increment(Fork(t)).value != t
  {
    var c := Fork(t);
    var u := Increment(c).value;
    assert u[..|t|] == c[..|t|] == t;
    IncrementGreater(c);
  }
}
