/** The machine integers and result codes every other module shares. */
module Words {
  const U32: nat := 0x1_0000_0000
  const U64: nat := 0x1_0000_0000_0000_0000
  const SIZE_MAX: nat := U64 - 1
  /** GPU addresses are 48 bits wide. */
  const ADDRESS_LIMIT: nat := 0x1_0000_0000_0000

  /** A 32-bit word, as the command arenas and register files hold them. */
  type Word = w: int | 0 <= w < 0x1_0000_0000

  /** A 64-bit quantity. */
  type Long = x: int | 0 <= x < 0x1_0000_0000_0000_0000

  type Byte = b: int | 0 <= b < 256

  /** The outcomes of the native calls, named after the Vulkan codes they return. */
  datatype VkResult =
    | Success
    | Unknown
    | OutOfHostMemory
    | OutOfDeviceMemory
    | DeviceLost
    | MapFailed
    | FormatNotSupported
    | FeatureNotPresent

  datatype Option<+T> = None | Some(value: T)

  /** The low and high words of a 64-bit quantity, as command packets carry it. */
  function Low(x: nat): Word { x % U32 }

  function High(x: nat): Word { x / U32 % U32 }

  lemma HalvesRejoin(x: nat)
    requires x < U64
    ensures Low(x) + U32 * High(x) == x
  {
  }

  /** Comparing with a quotient is comparing the product. */
  lemma AtMost(a: nat, b: nat, n: nat)
    requires n > 0
    ensures a <= b / n <==> n * a <= b
  {
    var d := b / n;
    assert n * d <= b < n * d + n;
    if a <= d {
      Scale(a, d, n);
    } else {
      Scale(d + 1, a, n);
    }
  }

  lemma Scale(a: nat, b: nat, n: nat)
    requires a <= b
    ensures n * a <= n * b
  {
  }

  /** `memory` with `ws` written over it from index `at` on. */
  function Overwrite<T>(memory: seq<T>, at: nat, ws: seq<T>): seq<T>
    requires at + |ws| <= |memory|
  {
    memory[..at] + ws + memory[at + |ws|..]
  }

  /** Writes `ws` into `a` from index `at` on. */
  method CopyInto<T>(a: array<T>, at: nat, ws: seq<T>)
    requires at + |ws| <= a.Length
    modifies a
    ensures a[..] == Overwrite(old(a[..]), at, ws)
  {
    var i := 0;
    while i < |ws|
      invariant i <= |ws|
      invariant a[..] == Overwrite(old(a[..]), at, ws[..i])
    {
      PutOne(a, at, ws, i, old(a[..]));
      i := i + 1;
    }
    assert ws[..i] == ws;
  }

  method PutOne<T>(a: array<T>, at: nat, ws: seq<T>, i: nat, ghost before: seq<T>)
    requires i < |ws| && at + |ws| <= a.Length == |before| && a[..] == Overwrite(before, at, ws[..i])
    modifies a
    ensures a[..] == Overwrite(before, at, ws[..i + 1])
  {
    a[at + i] := ws[i];
    assert ws[..i + 1] == ws[..i] + [ws[i]];
  }

  /** Concatenation of a list of lists. */
  function Flatten<T>(parts: seq<seq<T>>): seq<T> {
    if parts == [] then [] else Flatten(parts[..|parts| - 1]) + parts[|parts| - 1]
  }

  /** Appending one list appends its elements. */
  lemma FlattenSnoc<T>(parts: seq<seq<T>>, last: seq<T>)
    ensures Flatten(parts + [last]) == Flatten(parts) + last
  {
    assert (parts + [last])[..|parts|] == parts;
  }

  /** Growing the last list grows the concatenation at its end. */
  lemma FlattenGrowLast<T>(parts: seq<seq<T>>, x: T)
    requires parts != []
    ensures Flatten(parts[|parts| - 1 := parts[|parts| - 1] + [x]]) == Flatten(parts) + [x]
  {
    var n := |parts| - 1;
    var grown := parts[n := parts[n] + [x]];
    assert grown[..n] == parts[..n];
  }

  lemma {:induction false} FlattenAppend<T>(a: seq<seq<T>>, b: seq<seq<T>>)
    ensures Flatten(a + b) == Flatten(a) + Flatten(b)
    decreases |b|
  {
    if b == [] {
      assert a + b == a;
    } else {
      var front, last := b[..|b| - 1], b[|b| - 1];
      FlattenAppend(a, front);
      assert a + b == (a + front) + [last];
      FlattenSnoc(a + front, last);
      calc {
        Flatten(a + b);
        Flatten(a + front) + last;
        (Flatten(a) + Flatten(front)) + last;
        Flatten(a) + (Flatten(front) + last);
        Flatten(a) + Flatten(b);
      }
    }
  }

  /** One more group in a prefix of a grouped stream. */
  lemma FlattenGroups<T>(groups: seq<seq<seq<T>>>, n: nat)
    requires 0 < n <= |groups|
    ensures Flatten(Flatten(groups[..n])) == Flatten(Flatten(groups[..n - 1])) + Flatten(groups[n - 1])
  {
    assert groups[..n] == groups[..n - 1] + [groups[n - 1]];
    FlattenSnoc(groups[..n - 1], groups[n - 1]);
    FlattenAppend(Flatten(groups[..n - 1]), groups[n - 1]);
  }
}
