/** Base-128 varints, and the two framings of the message bus. */
module Varint {
  import opened Bytes

  function VarintBytes(v: nat): (s: seq<byte>)
    ensures |s| >= 1
  {
    if v < 128 then [v] else [128 + v % 128] + VarintBytes(v / 128)
  }

  /** A value and what follows it, or a malformed input. */
  datatype Decoded<+T> = Got(value: T, rest: seq<byte>) | Malformed

  function ReadGroups(s: seq<byte>, groups: nat): (r: Decoded<nat>)
    ensures r.Got? ==> |r.rest| < |s|
  {
    if s == [] || groups == 0 then Malformed
    else if s[0] < 128 then Got(s[0], s[1..])
    else match ReadGroups(s[1..], groups - 1)
      case Malformed => Malformed
      case Got(high, rest) => Got(s[0] - 128 + 128 * high, rest)
  }

  /** At most ten groups, and at most 64 bits. */
  function ReadVarint(s: seq<byte>): (r: Decoded<u64>)
    ensures r.Got? ==> |r.rest| < |s|
  {
    match ReadGroups(s, 10)
    case Malformed => Malformed
    case Got(v, rest) => if v < U64_LIMIT then Got(v, rest) else Malformed
  }

  function Pow128(n: nat): (p: nat)
    ensures p > 0
  {
    if n == 0 then 1 else 128 * Pow128(n - 1)
  }

  lemma {:induction false} GroupsInvert(v: nat, groups: nat, t: seq<byte>)
    requires groups > 0 && v < Pow128(groups)
    ensures ReadGroups(VarintBytes(v) + t, groups) == Got(v, t)
  {
    var s := VarintBytes(v) + t;
    if v < 128 {
      assert s[1..] == t;
    } else {
      GroupsInvert(v / 128, groups - 1, t);
      assert s[1..] == VarintBytes(v / 128) + t;
    }
  }

  lemma TenGroupsHold64Bits()
    ensures U64_LIMIT == 2 * Pow128(9) <= Pow128(10)
  {
    assert Pow128(4) == 128 * (128 * (128 * (128 * Pow128(0))));
    assert Pow128(9) == 128 * (128 * (128 * (128 * (128 * Pow128(4)))));
  }

  lemma VarintInverts(v: u64, t: seq<byte>)
    ensures ReadVarint(VarintBytes(v) + t) == Got(v, t)
  {
    TenGroupsHold64Bits();
    GroupsInvert(v, 10, t);
  }

  /** The first group without the continuation bit is the one at `k`. */
  predicate EndsAt(s: seq<byte>, k: nat) {
    k < |s| && s[k] < 128 && forall i :: 0 <= i < k ==> s[i] >= 128
  }

  lemma EndsLater(s: seq<byte>, k: nat)
    requires s != [] && s[0] >= 128
    ensures EndsAt(s, k) <==> k > 0 && EndsAt(s[1..], k - 1)
  {
    if k > 0 && EndsAt(s[1..], k - 1) {
      assert forall i :: 1 <= i < k ==> s[i] == s[1..][i - 1];
      assert s[k] == s[1..][k - 1];
    }
  }

  /** A last group at `k` is worth its share of that power, and the groups before it less than one more. */
  lemma {:induction false} GroupsThatEnd(s: seq<byte>, groups: nat, k: nat)
    requires EndsAt(s, k)
    ensures k < groups ==>
      && ReadGroups(s, groups).Got?
      && s[k] * Pow128(k) <= ReadGroups(s, groups).value < (1 + s[k]) * Pow128(k)
    ensures k >= groups ==> ReadGroups(s, groups).Malformed?
  {
    if k > 0 && groups > 0 {
      EndsLater(s, k);
      GroupsThatEnd(s[1..], groups - 1, k - 1);
      Scaled(s[k], Pow128(k - 1));
    }
  }

  lemma {:induction false} GroupsThatRunOn(s: seq<byte>, groups: nat) returns (k: nat)
    requires ReadGroups(s, groups).Got?
    ensures EndsAt(s, k)
  {
    if s[0] < 128 {
      k := 0;
    } else {
      var j := GroupsThatRunOn(s[1..], groups - 1);
      EndsLater(s, j + 1);
      k := j + 1;
    }
  }

  /** A varint is read exactly when one of the first ten groups is its last, the tenth holding one bit only. */
  lemma ReadVarintExactly(s: seq<byte>)
    ensures ReadVarint(s).Got? <==> exists k :: 0 <= k < 10 && EndsAt(s, k) && (k == 9 ==> s[k] <= 1)
  {
    hide ReadGroups, Pow128;
    if ReadGroups(s, 10).Got? {
      var k := GroupsThatRunOn(s, 10);
      GroupsThatEnd(s, 10, k);
      Holds64Bits(k, s[k], ReadGroups(s, 10).value);
    }
    forall k | 0 <= k < 10 && EndsAt(s, k) && (k == 9 ==> s[k] <= 1) ensures ReadVarint(s).Got? {
      GroupsThatEnd(s, 10, k);
      Holds64Bits(k, s[k], ReadGroups(s, 10).value);
    }
  }

  lemma {:induction false} PowerOrder(i: nat, j: nat)
    requires i <= j
    ensures Pow128(i) <= Pow128(j)
  {
    if i < j {
      PowerOrder(i, j - 1);
    }
  }

  lemma Holds64Bits(k: nat, x: byte, v: nat)
    requires k < 10 && x < 128 && x * Pow128(k) <= v < (1 + x) * Pow128(k)
    ensures v < U64_LIMIT <==> (k == 9 ==> x <= 1)
  {
    hide Pow128;
    TenGroupsHold64Bits();
    if k < 9 {
      PowerOrder(k + 1, 9);
      NextPower(k);
      ProductOrder(1 + x, 128, Pow128(k));
    } else if x <= 1 {
      ProductOrder(1 + x, 2, Pow128(9));
    } else {
      ProductOrder(2, x, Pow128(9));
    }
  }

  lemma NextPower(k: nat)
    ensures Pow128(k + 1) == 128 * Pow128(k)
  {
  }

  lemma ProductOrder(a: nat, b: nat, p: nat)
    requires a <= b
    ensures a * p <= b * p
  {
  }

  lemma Scaled(x: nat, p: nat)
    ensures x * (128 * p) == 128 * (x * p) && (x + 1) * (128 * p) == 128 * ((x + 1) * p)
  {
  }

  /** The length of the encoding, by counting the groups shifted out. */
  method VarintLen(value: u64) returns (n: nat)
    ensures n == |VarintBytes(value)|
  {
    var v := value;
    n := 1;
    while v >= 0x80
      invariant n + |VarintBytes(v)| == 1 + |VarintBytes(value)|
    {
      v := v / 128;
      n := n + 1;
    }
  }

  /** A value takes as many groups as it has digits to the base 128. */
  lemma {:induction false} VarintLength(v: nat, k: nat)
    requires Pow128(k) <= v < Pow128(k + 1)
    ensures |VarintBytes(v)| == k + 1
  {
    if v >= 128 {
      assert k > 0;
      VarintLength(v / 128, k - 1);
    }
  }

  // ---- the bus ---------------------------------------------------------------

  /** Length-delimited: a varint length, then the body. */
  function Delimited(body: seq<byte>): seq<byte> {
    VarintBytes(|body|) + body
  }

  function ReadDelimited(s: seq<byte>): (r: Decoded<seq<byte>>)
    ensures r.Got? ==> |r.rest| < |s| && |r.value| < |s|
  {
    match ReadVarint(s)
    case Malformed => Malformed
    case Got(n, rest) => if |rest| < n then Malformed else Got(rest[..n], rest[n..])
  }

  lemma DelimitedInverts(body: seq<byte>, t: seq<byte>)
    requires |body| < U64_LIMIT
    ensures ReadDelimited(Delimited(body) + t) == Got(body, t)
  {
    VarintInverts(|body|, body + t);
    assert Delimited(body) + t == VarintBytes(|body|) + (body + t);
    assert (body + t)[..|body|] == body && (body + t)[|body|..] == t;
  }

  /** The view framing: a four-byte length, then the body. */
  function Prefixed(body: seq<byte>): seq<byte> {
    U32Bytes(Truncate32(|body|)) + body
  }

  /** Reading panics on a short buffer, which is `Malformed` here. */
  function ReadPrefixed(s: seq<byte>): Decoded<seq<byte>> {
    if |s| < 4 then Malformed
    else
      var len: nat := BytesU32(s[..4]);
      if |s| < 4 + len then Malformed else Got(s[4..4 + len], s[4 + len..])
  }

  lemma {:induction false} VarintEndsAtLast(v: nat)
    ensures EndsAt(VarintBytes(v), |VarintBytes(v)| - 1)
  {
    if v >= 128 {
      VarintEndsAtLast(v / 128);
      EndsLater(VarintBytes(v), |VarintBytes(v)| - 1);
    }
  }

  lemma CutVarintIsRefused(v: nat, k: nat)
    requires k < |VarintBytes(v)|
    ensures ReadVarint(VarintBytes(v)[..k]).Malformed?
  {
    hide ReadVarint;
    VarintEndsAtLast(v);
    ReadVarintExactly(VarintBytes(v)[..k]);
  }

  /** Whatever is missing from the end of a framed body, both readers refuse it. */
  lemma CutBodyIsRefused(body: seq<byte>, k: nat)
    requires |body| < U64_LIMIT
    ensures k < |Delimited(body)| ==> ReadDelimited(Delimited(body)[..k]).Malformed?
    ensures k < 4 + |body| && |body| < U32_LIMIT ==> ReadPrefixed(Prefixed(body)[..k]).Malformed?
  {
    hide ReadVarint;
    var head := VarintBytes(|body|);
    if k < |head| {
      assert Delimited(body)[..k] == head[..k];
      CutVarintIsRefused(|body|, k);
    } else if k < |head| + |body| {
      assert Delimited(body)[..k] == head + body[..k - |head|];
      VarintInverts(|body|, body[..k - |head|]);
    }
    if 4 <= k < 4 + |body| && |body| < U32_LIMIT {
      assert Prefixed(body)[..k][..4] == U32Bytes(|body|);
      BytesOfU32(|body|);
    }
  }

  /** Writes the delimited framing of `body` to the front of a buffer. */
  method WriteDelimited(body: seq<byte>, buffer: array<byte>)
    requires |Delimited(body)| <= buffer.Length
    modifies buffer
    ensures buffer[..] == Delimited(body) + old(buffer[..])[|Delimited(body)|..]
  {
    ghost var was := buffer[..];
    var v: nat := |body|;
    var n: nat := 0;
    while v >= 128
      invariant n <= buffer.Length
      invariant VarintBytes(|body|) == buffer[..n] + VarintBytes(v)
      invariant n + |VarintBytes(v)| + |body| <= buffer.Length
      invariant buffer[n..] == was[n..]
      decreases v
    {
      PutAt(buffer, n, 128 + v % 128);
      assert was[n..][1..] == was[n + 1..];
      v := v / 128;
      n := n + 1;
    }
    PutAt(buffer, n, v);
    assert was[n..][1..] == was[n + 1..];
    n := n + 1;
    ghost var tail := buffer[n + |body|..];
    assert tail == buffer[n..][|body|..] == was[n + |body|..];
    CopyInto(body, buffer, n);
  }

  method PutAt(buffer: array<byte>, at: nat, b: byte)
    requires at < buffer.Length
    modifies buffer
    ensures buffer[..at + 1] == old(buffer[..at]) + [b] && buffer[at + 1..] == old(buffer[at..])[1..]
  {
    buffer[at] := b;
  }

  method CopyInto(body: seq<byte>, buffer: array<byte>, at: nat)
    requires at + |body| <= buffer.Length
    modifies buffer
    ensures buffer[..] == old(buffer[..at]) + body + old(buffer[at + |body|..])
  {
    forall i | 0 <= i < |body| {
      buffer[at + i] := body[i];
    }
  }

  /** Writes the prefixed framing of `body` to the front of a buffer. */
  method WritePrefixed(body: seq<byte>, buffer: array<byte>)
    requires 4 + |body| <= buffer.Length
    modifies buffer
    ensures buffer[..] == Prefixed(body) + old(buffer[..])[4 + |body|..]
  {
    CopyInto(U32Bytes(Truncate32(|body|)), buffer, 0);
    CopyInto(body, buffer, 4);
  }

  method DelimitedSize(body: seq<byte>) returns (size: nat)
    requires |body| < U64_LIMIT
    ensures size == |Delimited(body)|
  {
    var n := VarintLen(|body|);
    size := n + |body|;
  }

  /** Both framings give the body back, whatever padding follows; the prefixed one just while its length fits. */
  lemma PaddingIsIgnored(body: seq<byte>, padding: seq<byte>)
    requires |body| < U64_LIMIT
    ensures ReadDelimited(Delimited(body) + padding) == Got(body, padding)
    ensures ReadPrefixed(Prefixed(body) + padding) == Got(body, padding) <==> |body| < U32_LIMIT
  {
    DelimitedInverts(body, padding);
    var n := Truncate32(|body|);
    var s := Prefixed(body) + padding;
    assert s[..4] == U32Bytes(n);
    BytesOfU32(n);
    if |body| < U32_LIMIT {
      assert s[4..4 + n] == body && s[4 + n..] == padding;
    }
  }
}
