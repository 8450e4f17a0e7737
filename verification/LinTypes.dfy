/** Value types shared by the whole model: raw LIN events, diagnostic messages
    and the constants of the diagnostic transport. */
module LinTypes {

  type byte = x: int | 0 <= x < 256

  datatype Option<+T> = None | Some(value: T)

  datatype Result<+T, +E> = Ok(value: T) | Err(error: E)

  datatype Direction = RX | TX

  datatype Checksum = Classic | Enhanced

  /** A raw frame. The source passes pointers but copies an event whenever it
      crosses the driver boundary, so an event is a value here. */
  datatype LinEvent = LinEvent(channel: byte, id: byte, payload: seq<byte>, checksum: Checksum, direction: Direction)

  datatype LinMessage = LinMessage(nad: byte, sid: byte, data: seq<byte>)

  const MASTER_DIAGNOSTIC_ID: byte := 0x3C
  const SLAVE_DIAGNOSTIC_ID: byte := 0x3D
  const BROADCAST_NAD: byte := 0x7F
  /** The 12-bit length of a message counts its SID. */
  const MAX_DATA: nat := 4094
  const DEFAULT_TX_QUEUE: nat := 683
  /** Capacity of one event queue of the simulated driver. */
  const EVENT_QUEUE: nat := 20

  function Min(a: int, b: int): int { if a < b then a else b }

  /** The mod-16 frame counter advances like its index. */
  lemma NextCounter(k: nat)
    ensures (k % 16 + 1) % 16 == (k + 1) % 16
  {}

  function OptSeq<T>(o: Option<T>): seq<T> { if o.Some? then [o.value] else [] }

  lemma ConcatAssoc<T>(a: seq<T>, b: seq<T>, c: seq<T>)
    ensures (a + b) + c == a + (b + c)
  {}

  /** `a` is obtained from `b` by leaving elements out. */
  predicate Subsequence<T(==)>(a: seq<T>, b: seq<T>)
    decreases |b|
  {
    a == [] || (b != [] && ((a[0] == b[0] && Subsequence(a[1..], b[1..])) || Subsequence(a, b[1..])))
  }

  lemma {:induction false} SubsequenceRefl<T>(a: seq<T>)
    ensures Subsequence(a, a)
  {
    if a != [] { SubsequenceRefl(a[1..]); }
  }

  lemma {:induction false} SubsequenceTrans<T>(a: seq<T>, b: seq<T>, c: seq<T>)
    requires Subsequence(a, b) && Subsequence(b, c)
    ensures Subsequence(a, c)
    decreases |c|
  {
    if a != [] {
      if b[0] == c[0] && Subsequence(b[1..], c[1..]) {
        if a[0] == b[0] && Subsequence(a[1..], b[1..]) {
          SubsequenceTrans(a[1..], b[1..], c[1..]);
        } else {
          SubsequenceTrans(a, b[1..], c[1..]);
        }
      } else {
        SubsequenceTrans(a, b, c[1..]);
      }
    }
  }

  lemma {:induction false} SubsequenceConcat<T>(a: seq<T>, b: seq<T>, c: seq<T>, d: seq<T>)
    requires Subsequence(a, b) && Subsequence(c, d)
    ensures Subsequence(a + c, b + d)
    decreases |b|
  {
    if b == [] {
      assert a + c == c && b + d == d;
    } else {
      assert (b + d)[1..] == b[1..] + d && (b + d)[0] == b[0];
      if a != [] && a[0] == b[0] && Subsequence(a[1..], b[1..]) {
        assert (a + c)[1..] == a[1..] + c;
        SubsequenceConcat(a[1..], b[1..], c, d);
      } else {
        SubsequenceConcat(a, b[1..], c, d);
      }
    }
  }

  /** Leaving the last element out of the smaller sequence keeps the relation. */
  lemma SubsequencePrefix<T>(a: seq<T>, rest: seq<T>, b: seq<T>)
    requires Subsequence(a + rest, b)
    ensures Subsequence(a, b)
  {
    SubsequenceRefl(a);
    assert Subsequence([], rest);
    SubsequenceConcat(a, a, [], rest);
    assert a + [] == a;
    SubsequenceTrans(a, a + rest, b);
  }

  lemma {:induction false} SubsequenceMember<T>(a: seq<T>, b: seq<T>, x: T)
    requires Subsequence(a, b) && x in a
    ensures x in b
    decreases |b|
  {
    if a[0] == b[0] && Subsequence(a[1..], b[1..]) {
      if x != a[0] { SubsequenceMember(a[1..], b[1..], x); }
    } else {
      SubsequenceMember(a, b[1..], x);
    }
  }

  predicate Increasing(from: seq<nat>, bound: nat) {
    && (forall k :: 0 <= k < |from| ==> from[k] < bound)
    && forall j, k :: 0 <= j < k < |from| ==> from[j] < from[k]
  }

  lemma IncreasingMore(from: seq<nat>, n: nat)
    requires Increasing(from, n)
    ensures Increasing(from + [n], n + 1)
  {}

  /** Where the elements of a subsequence come from, at or after `at`. */
  predicate ComesFrom<T(==)>(a: seq<T>, from: seq<nat>, b: seq<T>, at: nat) {
    && |from| == |a| && Increasing(from, |b|)
    && forall k :: 0 <= k < |a| ==> at <= from[k] && a[k] == b[from[k]]
  }

  lemma ComesFromHead<T>(a: seq<T>, from: seq<nat>, b: seq<T>, at: nat)
    requires a != [] && at < |b| && a[0] == b[at] && ComesFrom(a[1..], from, b, at + 1)
    ensures ComesFrom(a, [at] + from, b, at)
  {
    assert forall k :: 0 <= k < |from| ==> at < from[k];
    assert a == [a[0]] + a[1..];
  }

  lemma {:induction false} SubsequenceIndices<T>(a: seq<T>, b: seq<T>, at: nat) returns (from: seq<nat>)
    requires at <= |b| && Subsequence(a, b[at..])
    ensures ComesFrom(a, from, b, at)
    decreases |b| - at
  {
    from := [];
    if a != [] {
      assert b[at..][1..] == b[at + 1..];
      if a[0] == b[at] && Subsequence(a[1..], b[at + 1..]) {
        from := SubsequenceIndices(a[1..], b, at + 1);
        ComesFromHead(a, from, b, at);
        from := [at] + from;
      } else {
        from := SubsequenceIndices(a, b, at + 1);
      }
    }
  }
}
