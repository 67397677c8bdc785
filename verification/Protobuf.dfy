/**
 The size-cached protobuf codec that is generated for every API message, as one
 interpreter of message schemas: the generated code of a message is this code
 with its fields unrolled. The schemas of the search and transfer messages are
 at the end.
 */
module Protobuf {
  import opened Bytes
  import opened Varint
  import Wire
  import Utf8

  datatype Kind = BoolKind | U32Kind | U64Kind | EnumKind | StringKind | MessagesKind(schema: Schema)

  datatype Field = Field(number: nat, kind: Kind)

  datatype Schema = Schema(fields: seq<Field>)

  datatype Value = Num(n: int) | Text(text: string) | Items(items: seq<Message>)

  /** A field the schema does not have, kept as it came. */
  datatype Unknown = UnknownVarint(number: nat, v: u64) | UnknownBytes(number: nat, b: seq<byte>)
                   | UnknownFixed32(number: nat, b: seq<byte>) | UnknownFixed64(number: nat, b: seq<byte>)

  datatype Message = Message(values: seq<Value>, unknown: seq<Unknown>)

  datatype Error = BadInput | WireTypeMismatch(number: nat, expected: nat, actual: nat)

  /** The protobuf specification's limit on a message. */
  const SIZE_LIMIT: nat := 0x8000_0000

  const VARINT: nat := 0
  const FIXED64: nat := 1
  const LENGTH_DELIMITED: nat := 2
  const FIXED32: nat := 5

  function TagBytes(number: nat, wire: nat): seq<byte> {
    VarintBytes(number * 8 + wire)
  }

  // ---- the naive encoding ------------------------------------------------------

  /** A scalar as the varint it travels as: negative enum values are sign-extended to 64 bits. */
  function ToWire(n: int): u64 {
    if n < 0 then n % U64_LIMIT else Truncate64(n)
  }

  function Truncate64(n: nat): u64 {
    if n < U64_LIMIT then n else n % U64_LIMIT
  }

  function UnknownField(u: Unknown): seq<byte> {
    match u
    case UnknownVarint(number, v) => TagBytes(number, VARINT) + VarintBytes(v)
    case UnknownBytes(number, b) => TagBytes(number, LENGTH_DELIMITED) + Delimited(b)
    case UnknownFixed32(number, b) => TagBytes(number, FIXED32) + b
    case UnknownFixed64(number, b) => TagBytes(number, FIXED64) + b
  }

  function UnknownFrom(us: seq<Unknown>, i: nat): seq<byte>
    decreases |us| - i
  {
    if i < |us| then UnknownField(us[i]) + UnknownFrom(us, i + 1) else []
  }

  function Enc(s: Schema, m: Message): seq<byte>
    decreases m, |m.values| + 1
  {
    EncFrom(s, m, 0) + UnknownFrom(m.unknown, 0)
  }

  function EncFrom(s: Schema, m: Message, i: nat): seq<byte>
    decreases m, |m.values| - i
  {
    if i < |s.fields| && i < |m.values| then EncValue(s.fields[i], m.values[i]) + EncFrom(s, m, i + 1) else []
  }

  /** Default values are not encoded. */
  function EncValue(f: Field, v: Value): seq<byte>
    decreases v
  {
    match v
    case Num(n) => if n == 0 then [] else TagBytes(f.number, VARINT) + VarintBytes(ToWire(n))
    case Text(t) => if t == [] then [] else TagBytes(f.number, LENGTH_DELIMITED) + Delimited(Utf8.Encode(t))
    case Items(ms) => if f.kind.MessagesKind? then EncItems(f.number, f.kind.schema, ms, 0) else []
  }

  function EncItems(number: nat, s: Schema, ms: seq<Message>, j: nat): seq<byte>
    decreases ms, |ms| - j
  {
    if j < |ms| then
      TagBytes(number, LENGTH_DELIMITED) + Delimited(Enc(s, ms[j])) + EncItems(number, s, ms, j + 1)
    else []
  }

  // ---- pre-order sizes ---------------------------------------------------------

  /** The encoded sizes of all nested messages, each before those nested inside it. */
  function Sizes(s: Schema, m: Message): seq<nat>
    decreases m, |m.values| + 1
  {
    SizesFrom(s, m, 0)
  }

  function SizesFrom(s: Schema, m: Message, i: nat): seq<nat>
    decreases m, |m.values| - i
  {
    if i < |s.fields| && i < |m.values| then SizesOf(s.fields[i], m.values[i]) + SizesFrom(s, m, i + 1) else []
  }

  function SizesOf(f: Field, v: Value): seq<nat>
    decreases v
  {
    if v.Items? && f.kind.MessagesKind? then SizesItems(f.kind.schema, v.items, 0) else []
  }

  function SizesItems(s: Schema, ms: seq<Message>, j: nat): seq<nat>
    decreases ms, |ms| - j
  {
    if j < |ms| then [|Enc(s, ms[j])|] + Sizes(s, ms[j]) + SizesItems(s, ms, j + 1) else []
  }

  // ---- the cache ---------------------------------------------------------------

  class SizeCache {
    var slots: seq<nat>
    var next: nat

    constructor ()
      ensures slots == [] && next == 0
    {
      slots, next := [], 0;
    }

    method Reserve() returns (slot: nat)
      modifies this
      ensures slot == |old(slots)| && slots == old(slots) + [0] && next == old(next)
    {
      slot := |slots|;
      slots := slots + [0];
    }

    method Set(slot: nat, size: nat)
      requires slot < |slots|
      modifies this
      ensures slots == old(slots)[slot := size] && next == old(next)
    {
      slots := slots[slot := size];
    }

    method ConsumeNext() returns (size: nat)
      requires next < |slots|
      modifies this
      ensures size == old(slots)[old(next)] && next == old(next) + 1 && slots == old(slots)
    {
      size := slots[next];
      next := next + 1;
    }
  }

  // ---- computing sizes -----------------------------------------------------------

  method UnknownLen(us: seq<Unknown>) returns (size: nat)
    requires |UnknownFrom(us, 0)| < SIZE_LIMIT
    ensures size == |UnknownFrom(us, 0)|
  {
    size := 0;
    var i := 0;
    while i < |us|
      invariant 0 <= i <= |us|
      invariant size + |UnknownFrom(us, i)| == |UnknownFrom(us, 0)|
    {
      size := size + |UnknownField(us[i])|;
      i := i + 1;
    }
  }

  /** The size of a scalar or string field, which reserves no slots. */
  method LeafSize(f: Field, v: Value) returns (size: nat)
    requires !v.Items? && |EncValue(f, v)| < SIZE_LIMIT
    ensures size == |EncValue(f, v)|
  {
    size := 0;
    match v
    case Num(n) =>
      if n != 0 {
        var len := VarintLen(ToWire(n));
        size := |TagBytes(f.number, VARINT)| + len;
      }
    case Text(t) =>
      if t != [] {
        var len := VarintLen(|Utf8.Encode(t)|);
        size := |TagBytes(f.number, LENGTH_DELIMITED)| + len + |Utf8.Encode(t)|;
      }
  }

  /** Fills the slots of a repeated field: reserve, recurse, set. */
  method ItemsSize(number: nat, s: Schema, ms: seq<Message>, cache: SizeCache) returns (size: nat)
    requires |EncItems(number, s, ms, 0)| < SIZE_LIMIT
    modifies cache
    ensures size == |EncItems(number, s, ms, 0)|
    ensures cache.slots == old(cache.slots) + SizesItems(s, ms, 0) && cache.next == old(cache.next)
    decreases ms, 1
  {
    hide Enc, Sizes;
    size := 0;
    ghost var whole := old(cache.slots) + SizesItems(s, ms, 0);
    var j := 0;
    while j < |ms|
      invariant 0 <= j <= |ms|
      invariant size + |EncItems(number, s, ms, j)| == |EncItems(number, s, ms, 0)|
      invariant cache.slots + SizesItems(s, ms, j) == whole
      invariant cache.next == old(cache.next)
    {
      ghost var before := cache.slots;
      var slot := cache.Reserve();
      var inner := ComputeSize(s, ms[j], cache);
      cache.Set(slot, inner);
      SlotFilled(before, inner, Sizes(s, ms[j]), SizesItems(s, ms, j + 1));
      var len := VarintLen(inner);
      size := size + (|TagBytes(number, LENGTH_DELIMITED)| + len + inner);
      j := j + 1;
    }
  }

  lemma SlotFilled(before: seq<nat>, size: nat, inner: seq<nat>, rest: seq<nat>)
    ensures (before + [0] + inner)[|before| := size] + rest == before + ([size] + inner + rest)
  {
  }

  lemma FieldsWithin(s: Schema, m: Message)
    ensures |Enc(s, m)| == |EncFrom(s, m, 0)| + |UnknownFrom(m.unknown, 0)|
  {
  }

  /** The encoded size, leaving the sizes of all nested messages in the cache in pre-order. */
  method ComputeSize(s: Schema, m: Message, cache: SizeCache) returns (size: nat)
    requires |Enc(s, m)| < SIZE_LIMIT
    modifies cache
    ensures size == |Enc(s, m)|
    ensures cache.slots == old(cache.slots) + Sizes(s, m) && cache.next == old(cache.next)
    decreases m, 0
  {
    hide EncValue, SizesOf, UnknownFrom, Enc;
    FieldsWithin(s, m);
    size := 0;
    var i := 0;
    while i < |s.fields| && i < |m.values|
      invariant 0 <= i <= |s.fields| && i <= |m.values|
      invariant size + |EncFrom(s, m, i)| == |EncFrom(s, m, 0)|
      invariant cache.slots + SizesFrom(s, m, i) == old(cache.slots) + Sizes(s, m)
      invariant cache.next == old(cache.next)
      invariant |EncFrom(s, m, i)| < SIZE_LIMIT
    {
      var (f, v) := (s.fields[i], m.values[i]);
      ghost var before := cache.slots;
      var part := 0;
      ItemsOnly(f, v);
      if v.Items? {
        if f.kind.MessagesKind? {
          part := ItemsSize(f.number, f.kind.schema, v.items, cache);
        }
      } else {
        part := LeafSize(f, v);
      }
      Wire.AppendAssoc(before, SizesOf(f, v), SizesFrom(s, m, i + 1));
      size := size + part;
      i := i + 1;
    }
    var unknown := UnknownLen(m.unknown);
    size := size + unknown;
  }

  lemma ItemsOnly(f: Field, v: Value)
    ensures v.Items? && f.kind.MessagesKind? ==>
      && EncValue(f, v) == EncItems(f.number, f.kind.schema, v.items, 0)
      && SizesOf(f, v) == SizesItems(f.kind.schema, v.items, 0)
    ensures v.Items? && !f.kind.MessagesKind? ==> EncValue(f, v) == [] && SizesOf(f, v) == []
    ensures !v.Items? ==> SizesOf(f, v) == []
  {
  }

  // ---- writing -------------------------------------------------------------------

  class Output {
    var data: seq<byte>

    constructor ()
      ensures data == []
    {
      data := [];
    }

    method Put(b: seq<byte>)
      modifies this
      ensures data == old(data) + b
    {
      data := data + b;
    }
  }

  /** The next slots to be consumed are `sizes`. */
  ghost predicate Cached(slots: seq<nat>, next: nat, sizes: seq<nat>) {
    next <= |slots| && sizes <= slots[next..]
  }

  lemma CachedSplit(slots: seq<nat>, next: nat, a: seq<nat>, b: seq<nat>)
    requires Cached(slots, next, a + b)
    ensures Cached(slots, next, a) && Cached(slots, next + |a|, b)
  {
    var t := slots[next..];
    assert t[..|a|] == a && t[|a|..|a| + |b|] == b;
    assert slots[next + |a|..] == t[|a|..];
  }

  method WriteItems(number: nat, s: Schema, ms: seq<Message>, cache: SizeCache, out: Output)
    requires Cached(cache.slots, cache.next, SizesItems(s, ms, 0))
    modifies cache, out
    ensures out.data == old(out.data) + EncItems(number, s, ms, 0)
    ensures cache.slots == old(cache.slots) && cache.next == old(cache.next) + |SizesItems(s, ms, 0)|
    decreases ms, 1
  {
    hide Enc, Sizes, VarintBytes, TagBytes;
    var j := 0;
    while j < |ms|
      invariant 0 <= j <= |ms|
      invariant out.data + EncItems(number, s, ms, j) == old(out.data) + EncItems(number, s, ms, 0)
      invariant cache.slots == old(cache.slots)
      invariant Cached(cache.slots, cache.next, SizesItems(s, ms, j))
      invariant cache.next + |SizesItems(s, ms, j)| == old(cache.next) + |SizesItems(s, ms, 0)|
    {
      ghost var (size, inner, rest) := (|Enc(s, ms[j])|, Sizes(s, ms[j]), SizesItems(s, ms, j + 1));
      assert [size] + inner + rest == [size] + (inner + rest);
      CachedSplit(cache.slots, cache.next, [size], inner + rest);
      CachedSplit(cache.slots, cache.next + 1, inner, rest);
      ghost var before := out.data;
      out.Put(TagBytes(number, LENGTH_DELIMITED));
      var n := cache.ConsumeNext();
      out.Put(VarintBytes(n));
      WriteTo(s, ms[j], cache, out);
      ItemWritten(before, TagBytes(number, LENGTH_DELIMITED), VarintBytes(n), Enc(s, ms[j]),
                  EncItems(number, s, ms, j + 1));
      j := j + 1;
    }
  }

  lemma ItemWritten(before: seq<byte>, tag: seq<byte>, len: seq<byte>, body: seq<byte>, rest: seq<byte>)
    ensures before + tag + len + body + rest == before + (tag + (len + body) + rest)
  {
  }

  method WriteUnknown(us: seq<Unknown>, out: Output)
    modifies out
    ensures out.data == old(out.data) + UnknownFrom(us, 0)
  {
    hide UnknownField;
    var i := 0;
    while i < |us|
      invariant 0 <= i <= |us|
      invariant out.data + UnknownFrom(us, i) == old(out.data) + UnknownFrom(us, 0)
    {
      Wire.AppendAssoc(out.data, UnknownField(us[i]), UnknownFrom(us, i + 1));
      out.Put(UnknownField(us[i]));
      i := i + 1;
    }
  }

  /** Writes the encoding, taking every nested length prefix from the cache. */
  method WriteTo(s: Schema, m: Message, cache: SizeCache, out: Output)
    requires Cached(cache.slots, cache.next, Sizes(s, m))
    modifies cache, out
    ensures out.data == old(out.data) + Enc(s, m)
    ensures cache.slots == old(cache.slots) && cache.next == old(cache.next) + |Sizes(s, m)|
    decreases m, 0
  {
    hide EncValue, SizesOf, UnknownFrom;
    var i := 0;
    while i < |s.fields| && i < |m.values|
      invariant 0 <= i <= |s.fields| && i <= |m.values|
      invariant out.data + EncFrom(s, m, i) == old(out.data) + EncFrom(s, m, 0)
      invariant cache.slots == old(cache.slots)
      invariant Cached(cache.slots, cache.next, SizesFrom(s, m, i))
      invariant cache.next + |SizesFrom(s, m, i)| == old(cache.next) + |Sizes(s, m)|
    {
      var (f, v) := (s.fields[i], m.values[i]);
      Wire.AppendAssoc(out.data, EncValue(f, v), EncFrom(s, m, i + 1));
      CachedSplit(cache.slots, cache.next, SizesOf(f, v), SizesFrom(s, m, i + 1));
      ItemsOnly(f, v);
      if v.Items? {
        if f.kind.MessagesKind? {
          WriteItems(f.number, f.kind.schema, v.items, cache, out);
        }
      } else {
        WriteLeaf(f, v, out);
      }
      i := i + 1;
    }
    Wire.AppendAssoc(old(out.data), EncFrom(s, m, 0), UnknownFrom(m.unknown, 0));
    WriteUnknown(m.unknown, out);
  }

  lemma LeafWritten(before: seq<byte>, tag: seq<byte>, len: seq<byte>, body: seq<byte>)
    ensures before + tag + len + body == before + (tag + (len + body))
    ensures before + tag + len == before + (tag + len)
  {
  }

  method WriteLeaf(f: Field, v: Value, out: Output)
    requires !v.Items?
    modifies out
    ensures out.data == old(out.data) + EncValue(f, v)
  {
    hide TagBytes, VarintBytes, ToWire, Utf8.Encode;
    ghost var before := out.data;
    assert before + [] == before;
    match v {
      case Num(n) =>
        if n != 0 {
          out.Put(TagBytes(f.number, VARINT));
          out.Put(VarintBytes(ToWire(n)));
          LeafWritten(before, TagBytes(f.number, VARINT), VarintBytes(ToWire(n)), []);
        }
      case Text(t) =>
        if t != [] {
          var u := Utf8.Encode(t);
          out.Put(TagBytes(f.number, LENGTH_DELIMITED));
          out.Put(VarintBytes(|u|));
          out.Put(u);
          LeafWritten(before, TagBytes(f.number, LENGTH_DELIMITED), VarintBytes(|u|), u);
        }
    }
  }

  /**
   The two passes together: what is written is the naive encoding, in which every
   nested length prefix is the length of what follows it, and the slots the first
   pass filled are consumed exactly, none left over.
   */
  method EncodeToVec(s: Schema, m: Message) returns (bytes: seq<byte>, size: nat, slots: nat, consumed: nat)
    requires |Enc(s, m)| < SIZE_LIMIT
    ensures bytes == Enc(s, m) && size == |bytes|
    ensures slots == consumed == |Sizes(s, m)|
  {
    var cache := new SizeCache();
    var out := new Output();
    size := ComputeSize(s, m, cache);
    slots := |cache.slots|;
    assert cache.slots == Sizes(s, m);
    WriteTo(s, m, cache, out);
    bytes, consumed := out.data, cache.next;
  }

  // ---- merging -------------------------------------------------------------------

  datatype Merged<+T> = Done(value: T, rest: seq<byte>) | Bad(error: Error)

  predicate InI32(n: int) {
    -0x8000_0000 <= n < 0x8000_0000
  }

  /** A scalar out of its varint: narrower kinds keep the low bits. */
  function FromWire(k: Kind, v: u64): int {
    match k
    case BoolKind => if v != 0 then 1 else 0
    case U32Kind => Truncate32(v)
    case EnumKind => if Truncate32(v) < 0x8000_0000 then Truncate32(v) else Truncate32(v) - U32_LIMIT
    case _ => v
  }

  function DefaultValue(k: Kind): Value {
    match k
    case StringKind => Text([])
    case MessagesKind(_) => Items([])
    case _ => Num(0)
  }

  function DefaultFrom(s: Schema, i: nat): (vs: seq<Value>)
    requires i <= |s.fields|
    ensures |vs| == |s.fields| - i
    ensures forall j :: 0 <= j < |vs| ==> vs[j] == DefaultValue(s.fields[i + j].kind)
    decreases |s.fields| - i
  {
    if i == |s.fields| then [] else [DefaultValue(s.fields[i].kind)] + DefaultFrom(s, i + 1)
  }

  function Default(s: Schema): Message {
    Message(DefaultFrom(s, 0), [])
  }

  function FieldIndex(s: Schema, number: nat, i: nat): (r: Option<nat>)
    ensures r.Some? ==> i <= r.value < |s.fields| && s.fields[r.value].number == number
    decreases |s.fields| - i
  {
    if i >= |s.fields| then None
    else if s.fields[i].number == number then Some(i)
    else FieldIndex(s, number, i + 1)
  }

  function ReadUnknown(number: nat, wire: nat, b: seq<byte>): (r: Merged<Unknown>)
    ensures r.Done? ==> |r.rest| <= |b|
  {
    if wire == VARINT then
      match ReadVarint(b) case Got(v, rest) => Done(UnknownVarint(number, v), rest) case Malformed => Bad(BadInput)
    else if wire == LENGTH_DELIMITED then
      match ReadDelimited(b) case Got(x, rest) => Done(UnknownBytes(number, x), rest) case Malformed => Bad(BadInput)
    else if wire == FIXED32 && |b| >= 4 then Done(UnknownFixed32(number, b[..4]), b[4..])
    else if wire == FIXED64 && |b| >= 8 then Done(UnknownFixed64(number, b[..8]), b[8..])
    else Bad(BadInput)
  }

  function ExpectedWire(k: Kind): nat {
    if k.StringKind? || k.MessagesKind? then LENGTH_DELIMITED else VARINT
  }

  /** Merges the content of one field, its tag already read. */
  function FieldMerged(s: Schema, m: Message, number: nat, wire: nat, b: seq<byte>, depth: nat): (r: Merged<Message>)
    requires |m.values| == |s.fields|
    ensures r.Done? ==> |r.value.values| == |s.fields| && |r.rest| <= |b|
    decreases depth, |b|, 0
  {
    match FieldIndex(s, number, 0)
    case None => (
      match ReadUnknown(number, wire, b)
      case Bad(e) => Bad(e)
      case Done(u, rest) => Done(m.(unknown := m.unknown + [u]), rest))
    case Some(i) =>
      var k := s.fields[i].kind;
      if wire != ExpectedWire(k) then Bad(WireTypeMismatch(number, ExpectedWire(k), wire))
      else if k.MessagesKind? || k.StringKind? then
        match ReadDelimited(b)
        case Malformed => Bad(BadInput)
        case Got(x, rest) =>
          if k.StringKind? then
            match Utf8.Decode(x)
            case None => Bad(BadInput)
            case Some(t) => Done(m.(values := m.values[i := Text(t)]), rest)
          else if depth == 0 || !m.values[i].Items? then Bad(BadInput)
          else
            match Merge(k.schema, Default(k.schema), x, depth - 1)
            case Bad(e) => Bad(e)
            case Done(item, _) => Done(m.(values := m.values[i := Items(m.values[i].items + [item])]), rest)
      else
        match ReadVarint(b)
        case Malformed => Bad(BadInput)
        case Got(v, rest) => Done(m.(values := m.values[i := Num(FromWire(k, v))]), rest)
  }

  /** Field numbers have 29 bits, and 0, as which a padding byte reads, is none. */
  predicate ValidNumber(number: nat) {
    1 <= number < 0x2000_0000
  }

  /** Merges a whole buffer into `m`. `depth` is the nesting still allowed. */
  function Merge(s: Schema, m: Message, b: seq<byte>, depth: nat): (r: Merged<Message>)
    requires |m.values| == |s.fields|
    ensures r.Done? ==> |r.value.values| == |s.fields| && r.rest == []
    decreases depth, |b|, 1
  {
    if b == [] then Done(m, [])
    else
      match ReadVarint(b)
      case Malformed => Bad(BadInput)
      case Got(tag, rest) =>
        if !ValidNumber(tag / 8) then Bad(BadInput)
        else
          match FieldMerged(s, m, tag / 8, tag % 8, rest, depth)
          case Bad(e) => Bad(e)
          case Done(m', rest') => Merge(s, m', rest', depth)
  }

  /** Carries on with the remaining fields after the outcome of one. */
  function MergeRest(s: Schema, r: Merged<Message>, depth: nat): Merged<Message>
    requires r.Done? ==> |r.value.values| == |s.fields|
  {
    match r
    case Bad(e) => Bad(e)
    case Done(m, rest) => Merge(s, m, rest, depth)
  }

  /** A cursor over the bytes still to be read. */
  class Input {
    var data: seq<byte>

    constructor (b: seq<byte>)
      ensures data == b
    {
      data := b;
    }
  }

  /** A message being decoded: its fields are assigned and appended to as they arrive. */
  class Draft {
    const schema: Schema
    var values: seq<Value>
    var unknown: seq<Unknown>

    constructor (s: Schema)
      ensures schema == s && Current() == Default(s)
    {
      schema := s;
      values, unknown := DefaultFrom(s, 0), [];
    }

    function Current(): Message
      reads this
    {
      Message(values, unknown)
    }

    /** Merges one field's content; a failure leaves the draft in no particular state. */
    method MergeField(number: nat, wire: nat, buf: Input, depth: nat) returns (failure: Option<Error>)
      requires |values| == |schema.fields|
      modifies this, buf
      ensures match FieldMerged(schema, old(Current()), number, wire, old(buf.data), depth)
              case Bad(e) => failure == Some(e)
              case Done(m, rest) => failure == None && Current() == m && buf.data == rest
      decreases depth, 0
    {
      hide Merge, ReadDelimited, ReadVarint, ReadUnknown, FieldIndex;
      failure := None;
      match FieldIndex(schema, number, 0) {
        case None =>
          match ReadUnknown(number, wire, buf.data) {
            case Bad(e) =>
              return Some(e);
            case Done(u, rest) =>
              buf.data, unknown := rest, unknown + [u];
          }
        case Some(i) =>
          var k := schema.fields[i].kind;
          if wire != ExpectedWire(k) {
            return Some(WireTypeMismatch(number, ExpectedWire(k), wire));
          }
          if k.StringKind? || k.MessagesKind? {
            var x := ReadDelimited(buf.data);
            if x.Malformed? {
              return Some(BadInput);
            }
            if k.StringKind? {
              var text := Utf8.Decode(x.value);
              if text.None? {
                return Some(BadInput);
              }
              buf.data, values := x.rest, values[i := Text(text.value)];
            } else {
              if depth == 0 || !values[i].Items? {
                return Some(BadInput);
              }
              var elem := new Draft(k.schema);
              var inner := new Input(x.value);
              failure := elem.MergeAll(inner, depth - 1);
              if failure.Some? {
                return;
              }
              buf.data, values := x.rest, values[i := Items(values[i].items + [elem.Current()])];
            }
          } else {
            var v := ReadVarint(buf.data);
            if v.Malformed? {
              return Some(BadInput);
            }
            buf.data, values := v.rest, values[i := Num(FromWire(k, v.value))];
          }
      }
    }

    /** Merges fields until the input is used up. */
    method MergeAll(buf: Input, depth: nat) returns (failure: Option<Error>)
      requires |values| == |schema.fields|
      modifies this, buf
      ensures match Merge(schema, old(Current()), old(buf.data), depth)
              case Bad(e) => failure == Some(e)
              case Done(m, rest) => failure == None && Current() == m && buf.data == rest
      decreases depth, 1
    {
      hide FieldMerged, ReadVarint;
      while buf.data != []
        invariant |values| == |schema.fields|
        invariant Merge(schema, Current(), buf.data, depth) == Merge(schema, old(Current()), old(buf.data), depth)
        decreases |buf.data|
      {
        match ReadVarint(buf.data) {
          case Malformed =>
            return Some(BadInput);
          case Got(tag, rest) =>
            if !ValidNumber(tag / 8) {
              return Some(BadInput);
            }
            buf.data := rest;
            failure := MergeField(tag / 8, tag % 8, buf, depth);
            if failure.Some? {
              return;
            }
        }
      }
      failure := None;
    }
  }

  // ---- what merging should do --------------------------------------------------

  predicate ValidSchema(s: Schema)
    decreases s
  {
    && (forall i :: 0 <= i < |s.fields| ==> ValidNumber(s.fields[i].number))
    && (forall i, j :: 0 <= i < j < |s.fields| ==> s.fields[i].number != s.fields[j].number)
    && (forall i :: 0 <= i < |s.fields| ==> ValidKind(s.fields[i].kind))
  }

  predicate ValidKind(k: Kind)
    decreases k
  {
    k.MessagesKind? ==> ValidSchema(k.schema)
  }

  predicate ValidUnknown(s: Schema, u: Unknown) {
    && ValidNumber(u.number)
    && FieldIndex(s, u.number, 0) == None
    && (u.UnknownFixed32? ==> |u.b| == 4)
    && (u.UnknownFixed64? ==> |u.b| == 8)
  }

  /** `m` has the fields of `s`, in range, and nests at most `depth` deep. */
  predicate Typed(s: Schema, m: Message, depth: nat)
    decreases depth, 1
  {
    && |m.values| == |s.fields|
    && (forall i :: 0 <= i < |m.values| ==> TypedValue(s.fields[i].kind, m.values[i], depth))
    && (forall i :: 0 <= i < |m.unknown| ==> ValidUnknown(s, m.unknown[i]))
  }

  predicate TypedValue(k: Kind, v: Value, depth: nat)
    decreases depth, 0
  {
    match k
    case BoolKind => v.Num? && (v.n == 0 || v.n == 1)
    case U32Kind => v.Num? && 0 <= v.n < U32_LIMIT
    case U64Kind => v.Num? && 0 <= v.n < U64_LIMIT
    case EnumKind => v.Num? && InI32(v.n)
    case StringKind => v.Text?
    case MessagesKind(sub) =>
      v.Items? && (v.items != [] ==> depth > 0 && forall j :: 0 <= j < |v.items| ==> Typed(sub, v.items[j], depth - 1))
  }

  /** The last non-default scalar wins; repeated fields are concatenated. */
  function CombineValue(a: Value, b: Value): Value {
    match b
    case Num(n) => if n == 0 then a else b
    case Text(t) => if t == [] then a else b
    case Items(ms) => if a.Items? then Items(a.items + ms) else a
  }

  function CombineFrom(a: Message, b: Message, i: nat): (vs: seq<Value>)
    requires i <= |a.values| == |b.values|
    ensures |vs| == |a.values| - i
    ensures forall j :: 0 <= j < |vs| ==> vs[j] == CombineValue(a.values[i + j], b.values[i + j])
    decreases |a.values| - i
  {
    if i == |a.values| then [] else [CombineValue(a.values[i], b.values[i])] + CombineFrom(a, b, i + 1)
  }

  function Combine(a: Message, b: Message): Message
    requires |a.values| == |b.values|
  {
    Message(CombineFrom(a, b, 0), a.unknown + b.unknown)
  }

  /** Values have the shape of their kinds, whatever their ranges. */
  predicate Shaped(s: Schema, m: Message) {
    && |m.values| == |s.fields|
    && forall i :: 0 <= i < |m.values| ==> (s.fields[i].kind.MessagesKind? ==> m.values[i].Items?)
  }

  // ---- merging what was written --------------------------------------------------

  lemma ScalarInverts(k: Kind, n: int)
    requires !k.StringKind? && !k.MessagesKind? && TypedValue(k, Num(n), 0)
    ensures FromWire(k, ToWire(n)) == n
  {
  }

  lemma {:induction false} FieldIndexFinds(s: Schema, i: nat, from: nat)
    requires ValidSchema(s) && from <= i < |s.fields|
    ensures FieldIndex(s, s.fields[i].number, from) == Some(i)
    decreases i - from
  {
    if from < i {
      FieldIndexFinds(s, i, from + 1);
    }
  }

  lemma TagInverts(number: nat, wire: nat, t: seq<byte>)
    requires ValidNumber(number) && wire < 8
    ensures ReadVarint(TagBytes(number, wire) + t) == Got(number * 8 + wire, t)
    ensures (number * 8 + wire) / 8 == number && (number * 8 + wire) % 8 == wire
  {
    VarintInverts(number * 8 + wire, t);
  }

  /** One field: its tag is read, then its content is merged. */
  lemma MergeStep(s: Schema, m: Message, number: nat, wire: nat, b: seq<byte>, depth: nat)
    requires |m.values| == |s.fields| && ValidNumber(number) && wire < 8
    ensures Merge(s, m, TagBytes(number, wire) + b, depth)
            == MergeRest(s, FieldMerged(s, m, number, wire, b, depth), depth)
  {
    hide FieldMerged, ReadVarint, TagBytes;
    TagInverts(number, wire, b);
    assert TagBytes(number, wire) + b != [] by {
      TagNotEmpty(number, wire);
    }
  }

  lemma TagNotEmpty(number: nat, wire: nat)
    ensures TagBytes(number, wire) != []
  {
  }

  lemma LeafMerges(s: Schema, m: Message, i: nat, v: Value, t: seq<byte>, depth: nat)
    requires ValidSchema(s) && Shaped(s, m) && i < |s.fields|
    requires TypedValue(s.fields[i].kind, v, depth) && !v.Items?
    requires |EncValue(s.fields[i], v)| < SIZE_LIMIT
    ensures Merge(s, m, EncValue(s.fields[i], v) + t, depth)
            == Merge(s, m.(values := m.values[i := CombineValue(m.values[i], v)]), t, depth)
  {
    hide Merge, ReadVarint, ReadDelimited, TagBytes, VarintBytes, Delimited;
    var f := s.fields[i];
    var same := m.(values := m.values[i := m.values[i]]);
    assert same == m;
    FieldIndexFinds(s, i, 0);
    match v {
      case Num(n) =>
        if n == 0 {
          assert EncValue(f, v) + t == t;
        } else {
          var w := ToWire(n);
          assert EncValue(f, v) + t == TagBytes(f.number, VARINT) + (VarintBytes(w) + t);
          MergeStep(s, m, f.number, VARINT, VarintBytes(w) + t, depth);
          VarintInverts(w, t);
          ScalarInverts(f.kind, n);
        }
      case Text(x) =>
        if x == [] {
          assert EncValue(f, v) + t == t;
        } else {
          var u := Utf8.Encode(x);
          assert EncValue(f, v) + t == TagBytes(f.number, LENGTH_DELIMITED) + (Delimited(u) + t);
          MergeStep(s, m, f.number, LENGTH_DELIMITED, Delimited(u) + t, depth);
          DelimitedShorter(TagBytes(f.number, LENGTH_DELIMITED), u);
          DelimitedInverts(u, t);
          Utf8.DecodeEncode(x);
        }
    }
  }

  lemma DelimitedShorter(tag: seq<byte>, body: seq<byte>)
    ensures |body| <= |tag + Delimited(body)|
  {
  }

  lemma {:induction false} UnknownMerges(s: Schema, m: Message, us: seq<Unknown>, i: nat, t: seq<byte>, depth: nat)
    requires |m.values| == |s.fields| && i <= |us|
    requires forall j :: 0 <= j < |us| ==> ValidUnknown(s, us[j])
    requires |UnknownFrom(us, i)| < SIZE_LIMIT
    ensures Merge(s, m, UnknownFrom(us, i) + t, depth) == Merge(s, m.(unknown := m.unknown + us[i..]), t, depth)
    decreases |us| - i
  {
    hide Merge, TagBytes, UnknownField;
    if i == |us| {
      assert m.unknown + us[i..] == m.unknown && m == m.(unknown := m.unknown);
      assert UnknownFrom(us, i) + t == t;
    } else {
      var rest := UnknownFrom(us, i + 1) + t;
      assert UnknownFrom(us, i) + t == UnknownField(us[i]) + rest;
      var m' := m.(unknown := m.unknown + [us[i]]);
      OneUnknownMerges(s, m, us[i], rest, depth);
      UnknownMerges(s, m', us, i + 1, t, depth);
      assert m.unknown + us[i..] == m'.unknown + us[i + 1..];
    }
  }

  lemma OneUnknownMerges(s: Schema, m: Message, u: Unknown, rest: seq<byte>, depth: nat)
    requires |m.values| == |s.fields| && ValidUnknown(s, u)
    requires |UnknownField(u)| < SIZE_LIMIT
    ensures Merge(s, m, UnknownField(u) + rest, depth)
            == Merge(s, m.(unknown := m.unknown + [u]), rest, depth)
  {
    hide Merge, ReadVarint, ReadDelimited, TagBytes, VarintBytes, Delimited;
    match u {
      case UnknownVarint(number, v) =>
        assert UnknownField(u) + rest == TagBytes(number, VARINT) + (VarintBytes(v) + rest);
        MergeStep(s, m, number, VARINT, VarintBytes(v) + rest, depth);
        VarintInverts(v, rest);
      case UnknownBytes(number, b) =>
        assert UnknownField(u) + rest == TagBytes(number, LENGTH_DELIMITED) + (Delimited(b) + rest);
        MergeStep(s, m, number, LENGTH_DELIMITED, Delimited(b) + rest, depth);
        DelimitedShorter(TagBytes(number, LENGTH_DELIMITED), b);
        DelimitedInverts(b, rest);
      case UnknownFixed32(number, b) =>
        assert UnknownField(u) + rest == TagBytes(number, FIXED32) + (b + rest);
        MergeStep(s, m, number, FIXED32, b + rest, depth);
        assert (b + rest)[..4] == b && (b + rest)[4..] == rest;
      case UnknownFixed64(number, b) =>
        assert UnknownField(u) + rest == TagBytes(number, FIXED64) + (b + rest);
        MergeStep(s, m, number, FIXED64, b + rest, depth);
        assert (b + rest)[..8] == b && (b + rest)[8..] == rest;
    }
  }

  /** One nested message whose encoding decodes to it is appended to its field. */
  lemma ItemMerges(s: Schema, m: Message, i: nat, item: Message, t: seq<byte>, depth: nat)
    requires ValidSchema(s) && Shaped(s, m) && i < |s.fields| && depth > 0
    requires s.fields[i].kind.MessagesKind?
    requires var sub := s.fields[i].kind.schema;
      && |Enc(sub, item)| < SIZE_LIMIT
      && Merge(sub, Default(sub), Enc(sub, item), depth - 1) == Done(item, [])
    ensures Merge(s, m, TagBytes(s.fields[i].number, LENGTH_DELIMITED)
                        + (Delimited(Enc(s.fields[i].kind.schema, item)) + t), depth)
            == Merge(s, m.(values := m.values[i := Items(m.values[i].items + [item])]), t, depth)
  {
    hide Merge, ReadVarint, ReadDelimited, TagBytes, VarintBytes, Delimited, Enc;
    var (number, sub) := (s.fields[i].number, s.fields[i].kind.schema);
    var body := Enc(sub, item);
    MergeStep(s, m, number, LENGTH_DELIMITED, Delimited(body) + t, depth);
    DelimitedInverts(body, t);
    FieldIndexFinds(s, i, 0);
  }

  lemma {:induction false} ItemsMerge(s: Schema, m: Message, i: nat, ms: seq<Message>, j: nat, t: seq<byte>, depth: nat)
    requires ValidSchema(s) && Shaped(s, m) && i < |s.fields| && j <= |ms|
    requires s.fields[i].kind.MessagesKind?
    requires TypedValue(s.fields[i].kind, Items(ms), depth)
    requires |EncItems(s.fields[i].number, s.fields[i].kind.schema, ms, j)| < SIZE_LIMIT
    ensures Merge(s, m, EncItems(s.fields[i].number, s.fields[i].kind.schema, ms, j) + t, depth)
            == Merge(s, m.(values := m.values[i := Items(m.values[i].items + ms[j..])]), t, depth)
    decreases depth, 1, |ms| - j
  {
    hide Merge, TagBytes, VarintBytes, Delimited, Enc;
    var (number, sub) := (s.fields[i].number, s.fields[i].kind.schema);
    var before := m.values[i].items;
    if j == |ms| {
      assert EncItems(number, sub, ms, j) + t == t;
      assert before + ms[j..] == before;
      assert m.values == m.values[i := Items(before + ms[j..])];
    } else {
      var body := Enc(sub, ms[j]);
      var rest := EncItems(number, sub, ms, j + 1) + t;
      assert EncItems(number, sub, ms, j) + t == TagBytes(number, LENGTH_DELIMITED) + (Delimited(body) + rest);
      DelimitedShorter(TagBytes(number, LENGTH_DELIMITED), body);
      assert ValidKind(s.fields[i].kind);
      RoundTrip(sub, ms[j], depth - 1);
      ItemMerges(s, m, i, ms[j], rest, depth);
      var m' := m.(values := m.values[i := Items(before + [ms[j]])]);
      ItemsMerge(s, m', i, ms, j + 1, t, depth);
      assert before + [ms[j]] + ms[j + 1..] == before + ms[j..];
      assert m'.values[i := Items(before + ms[j..])] == m.values[i := Items(before + ms[j..])];
    }
  }

  /** The message after the first `i` fields of `b` have been merged into `a`. */
  function Partway(a: Message, b: Message, i: nat): (m: Message)
    requires i <= |a.values| == |b.values|
    ensures |m.values| == |a.values|
  {
    Message(CombineFrom(a, b, 0)[..i] + a.values[i..], a.unknown)
  }

  lemma PartwayStep(a: Message, b: Message, i: nat)
    requires i < |a.values| == |b.values|
    ensures var m := Partway(a, b, i);
      m.(values := m.values[i := CombineValue(a.values[i], b.values[i])]) == Partway(a, b, i + 1)
  {
  }

  lemma PartwayShaped(s: Schema, a: Message, b: Message, i: nat)
    requires Shaped(s, a) && Shaped(s, b) && i < |a.values| == |b.values|
    ensures Shaped(s, Partway(a, b, i)) && Partway(a, b, i).values[i] == a.values[i]
  {
  }

  lemma {:induction false} FieldsMerge(s: Schema, a: Message, b: Message, i: nat, t: seq<byte>, depth: nat)
    requires ValidSchema(s) && Shaped(s, a) && Typed(s, b, depth) && i <= |s.fields|
    requires |EncFrom(s, b, i)| < SIZE_LIMIT
    ensures Merge(s, Partway(a, b, i), EncFrom(s, b, i) + t, depth)
            == Merge(s, Partway(a, b, |s.fields|), t, depth)
    decreases depth, 2, |s.fields| - i
  {
    hide Merge, EncValue, Partway, ValidSchema;
    TypedShaped(s, b, depth);
    if i == |s.fields| {
      assert EncFrom(s, b, i) + t == t;
    } else {
      var (f, v) := (s.fields[i], b.values[i]);
      var m := Partway(a, b, i);
      var rest := EncFrom(s, b, i + 1) + t;
      PartwayShaped(s, a, b, i);
      assert EncFrom(s, b, i) + t == EncValue(f, v) + rest;
      assert TypedValue(f.kind, v, depth);
      if v.Items? {
        ItemsOnly(f, v);
        ItemsMerge(s, m, i, v.items, 0, rest, depth);
        assert v.items[0..] == v.items;
      } else {
        LeafMerges(s, m, i, v, rest, depth);
      }
      PartwayStep(a, b, i);
      FieldsMerge(s, a, b, i + 1, t, depth);
    }
  }

  /** Merging an encoded message combines the two: last one wins, repeated fields append. */
  lemma {:induction false} MergeCombines(s: Schema, a: Message, b: Message, t: seq<byte>, depth: nat)
    requires ValidSchema(s) && Shaped(s, a) && Typed(s, b, depth)
    requires |Enc(s, b)| < SIZE_LIMIT
    ensures Merge(s, a, Enc(s, b) + t, depth) == Merge(s, Combine(a, b), t, depth)
    decreases depth, 3
  {
    hide Merge, EncFrom, UnknownFrom;
    var (fields, rest) := (EncFrom(s, b, 0), UnknownFrom(b.unknown, 0) + t);
    assert Partway(a, b, 0) == a;
    Wire.AppendAssoc(fields, UnknownFrom(b.unknown, 0), t);
    FieldsMerge(s, a, b, 0, rest, depth);
    UnknownMerges(s, Partway(a, b, |s.fields|), b.unknown, 0, t, depth);
    assert b.unknown[0..] == b.unknown;
    assert CombineFrom(a, b, 0)[..|s.fields|] + a.values[|s.fields|..] == CombineFrom(a, b, 0);
  }

  lemma CombineDefault(s: Schema, m: Message, depth: nat)
    requires Typed(s, m, depth)
    ensures Shaped(s, Default(s)) && Combine(Default(s), m) == m
  {
    var d := Default(s);
    forall i | 0 <= i < |m.values|
      ensures CombineValue(d.values[i], m.values[i]) == m.values[i]
    {
      assert TypedValue(s.fields[i].kind, m.values[i], depth);
    }
    assert CombineFrom(d, m, 0) == m.values;
  }

  /** Decoding the encoding of any message under the size limit gives the message back. */
  lemma {:induction false} RoundTrip(s: Schema, m: Message, depth: nat)
    requires ValidSchema(s) && Typed(s, m, depth)
    requires |Enc(s, m)| < SIZE_LIMIT
    ensures Merge(s, Default(s), Enc(s, m), depth) == Done(m, [])
    decreases depth, 4
  {
    CombineDefault(s, m, depth);
    MergeCombines(s, Default(s), m, [], depth);
    assert Enc(s, m) + [] == Enc(s, m);
  }

  /** What combining does to one field: the last non-default scalar, or both lists. */
  lemma CombinedField(s: Schema, a: Message, b: Message, i: nat, depth: nat)
    requires Typed(s, a, depth) && Typed(s, b, depth) && i < |s.fields|
    ensures match b.values[i]
            case Num(n) => Combine(a, b).values[i] == (if n != 0 then b.values[i] else a.values[i])
            case Text(x) => Combine(a, b).values[i] == (if x != [] then b.values[i] else a.values[i])
            case Items(ms) => a.values[i].Items? && Combine(a, b).values[i] == Items(a.values[i].items + ms)
  {
    hide ValidUnknown;
    assert TypedValue(s.fields[i].kind, a.values[i], depth) && TypedValue(s.fields[i].kind, b.values[i], depth);
  }

  /** Two encodings one after the other decode to the combination of the two messages. */
  lemma LastOneWins(s: Schema, a: Message, b: Message, depth: nat)
    requires ValidSchema(s) && Typed(s, a, depth) && Typed(s, b, depth)
    requires |Enc(s, a)| < SIZE_LIMIT && |Enc(s, b)| < SIZE_LIMIT
    ensures Merge(s, Default(s), Enc(s, a) + Enc(s, b), depth) == Done(Combine(a, b), [])
    ensures Combine(a, b).unknown == a.unknown + b.unknown
    ensures forall i :: 0 <= i < |s.fields| ==>
      match b.values[i]
      case Num(n) => Combine(a, b).values[i] == (if n != 0 then b.values[i] else a.values[i])
      case Text(x) => Combine(a, b).values[i] == (if x != [] then b.values[i] else a.values[i])
      case Items(ms) => a.values[i].Items? && Combine(a, b).values[i] == Items(a.values[i].items + ms)
  {
    hide Enc, ValidSchema, TypedValue, ValidUnknown, FieldMerged, CombineFrom;
    CombineDefault(s, a, depth);
    MergeCombines(s, Default(s), a, Enc(s, b), depth);
    TypedShaped(s, a, depth);
    MergeCombines(s, a, b, [], depth);
    assert Enc(s, b) + [] == Enc(s, b);
    forall i | 0 <= i < |s.fields|
      ensures match b.values[i]
              case Num(n) => Combine(a, b).values[i] == (if n != 0 then b.values[i] else a.values[i])
              case Text(x) => Combine(a, b).values[i] == (if x != [] then b.values[i] else a.values[i])
              case Items(ms) => a.values[i].Items? && Combine(a, b).values[i] == Items(a.values[i].items + ms)
    {
      CombinedField(s, a, b, i, depth);
    }
  }

  lemma TypedShaped(s: Schema, m: Message, depth: nat)
    requires Typed(s, m, depth)
    ensures Shaped(s, m)
  {
    forall i | 0 <= i < |m.values| ensures s.fields[i].kind.MessagesKind? ==> m.values[i].Items? {
      assert TypedValue(s.fields[i].kind, m.values[i], depth);
    }
  }

  /** A message written to the bus is read back from it whatever padding follows. */
  lemma BusDelivers(s: Schema, m: Message, padding: seq<byte>, depth: nat)
    requires ValidSchema(s) && Typed(s, m, depth)
    requires |Enc(s, m)| < SIZE_LIMIT
    ensures ReadDelimited(Delimited(Enc(s, m)) + padding) == Got(Enc(s, m), padding)
    ensures ReadPrefixed(Prefixed(Enc(s, m)) + padding) == Got(Enc(s, m), padding)
    ensures Merge(s, Default(s), Enc(s, m), depth) == Done(m, [])
  {
    hide Enc;
    PaddingIsIgnored(Enc(s, m), padding);
    RoundTrip(s, m, depth);
  }

  /** Why the bus frames its bodies: padding after an unframed one is refused. */
  lemma PaddingIsRefused(s: Schema, m: Message, padding: seq<byte>, depth: nat)
    requires ValidSchema(s) && Typed(s, m, depth)
    requires |Enc(s, m)| < SIZE_LIMIT
    requires padding != [] && padding[0] == 0
    ensures Merge(s, Default(s), Enc(s, m) + padding, depth) == Bad(BadInput)
  {
    hide Enc;
    CombineDefault(s, m, depth);
    MergeCombines(s, Default(s), m, padding, depth);
    assert ReadVarint(padding) == Got(0, padding[1..]);
  }

  // ---- bytes no encoder makes ------------------------------------------------------

  /** A scalar's varint read into a narrower kind keeps its low bits; any but 0 is true. */
  lemma ReadScalarsAreCast(k: Kind, v: u64)
    requires k.BoolKind? || k.U32Kind? || k.U64Kind? || k.EnumKind?
    ensures TypedValue(k, Num(FromWire(k, v)), 0)
    ensures k.BoolKind? ==> (FromWire(k, v) == 0 <==> v == 0)
    ensures k.U32Kind? || k.EnumKind? ==> FromWire(k, v) % U32_LIMIT == v % U32_LIMIT
    ensures k.U64Kind? ==> FromWire(k, v) == v
  {
  }

  /** A negative enum value is sign-extended to 64 bits, and takes all ten groups. */
  lemma NegativesTakeTenGroups(n: int)
    requires InI32(n) && n < 0
    ensures ToWire(n) == U64_LIMIT + n && |VarintBytes(ToWire(n))| == 10
  {
    TenGroupsHold64Bits();
    VarintLength(ToWire(n), 9);
  }

  lemma DefaultIsTyped(s: Schema, depth: nat)
    ensures Typed(s, Default(s), depth)
  {
  }

  lemma UnknownIsValid(s: Schema, number: nat, wire: nat, b: seq<byte>)
    requires ValidNumber(number) && FieldIndex(s, number, 0) == None
    ensures ReadUnknown(number, wire, b).Done? ==> ValidUnknown(s, ReadUnknown(number, wire, b).value)
  {
    hide ReadVarint, ReadDelimited;
  }

  lemma OneValueTyped(s: Schema, m: Message, i: nat, v: Value, depth: nat)
    requires Typed(s, m, depth) && i < |s.fields| && TypedValue(s.fields[i].kind, v, depth)
    ensures Typed(s, m.(values := m.values[i := v]), depth)
  {
    hide TypedValue, ValidUnknown;
  }

  lemma OneUnknownTyped(s: Schema, m: Message, u: Unknown, depth: nat)
    requires Typed(s, m, depth) && ValidUnknown(s, u)
    ensures Typed(s, m.(unknown := m.unknown + [u]), depth)
  {
    hide TypedValue, ValidUnknown;
  }

  lemma OneItemTyped(k: Kind, items: seq<Message>, item: Message, depth: nat)
    requires k.MessagesKind? && depth > 0
    requires TypedValue(k, Items(items), depth) && Typed(k.schema, item, depth - 1)
    ensures TypedValue(k, Items(items + [item]), depth)
  {
    hide Typed;
  }

  lemma ScalarTyped(k: Kind, v: u64, depth: nat)
    requires !k.StringKind? && !k.MessagesKind?
    ensures TypedValue(k, Num(FromWire(k, v)), depth)
  {
  }

  lemma {:induction false} FieldStaysTyped(s: Schema, m: Message, number: nat, wire: nat, b: seq<byte>, depth: nat)
    requires Typed(s, m, depth) && ValidNumber(number)
    ensures var r := FieldMerged(s, m, number, wire, b, depth);
      r.Done? ==> Typed(s, r.value, depth)
    decreases depth, |b|, 0
  {
    hide Typed, TypedValue, ReadVarint, ReadDelimited, ReadUnknown, ValidUnknown, FromWire;
    assert |m.values| == |s.fields| by {
      TypedShape(s, m, depth);
    }
    match FieldIndex(s, number, 0)
    case None =>
      UnknownIsValid(s, number, wire, b);
      if ReadUnknown(number, wire, b).Done? {
        OneUnknownTyped(s, m, ReadUnknown(number, wire, b).value, depth);
      }
    case Some(i) =>
      var k := s.fields[i].kind;
      TypedAt(s, m, i, depth);
      if k.MessagesKind? {
        var x := ReadDelimited(b);
        if depth > 0 && x.Got? {
          DefaultIsTyped(k.schema, depth - 1);
          MergedIsTyped(k.schema, Default(k.schema), x.value, depth - 1);
          var item := Merge(k.schema, Default(k.schema), x.value, depth - 1);
          if item.Done? && m.values[i].Items? {
            OneItemTyped(k, m.values[i].items, item.value, depth);
            OneValueTyped(s, m, i, Items(m.values[i].items + [item.value]), depth);
          }
        }
      } else if k.StringKind? {
        forall t: string ensures Typed(s, m.(values := m.values[i := Text(t)]), depth) {
          StringTyped(t, depth);
          OneValueTyped(s, m, i, Text(t), depth);
        }
      } else if ReadVarint(b).Got? {
        ScalarTyped(k, ReadVarint(b).value, depth);
        OneValueTyped(s, m, i, Num(FromWire(k, ReadVarint(b).value)), depth);
      }
  }

  lemma StringTyped(t: string, depth: nat)
    ensures TypedValue(StringKind, Text(t), depth)
  {
  }

  lemma TypedShape(s: Schema, m: Message, depth: nat)
    requires Typed(s, m, depth)
    ensures |m.values| == |s.fields|
  {
  }

  lemma TypedAt(s: Schema, m: Message, i: nat, depth: nat)
    requires Typed(s, m, depth) && i < |s.fields|
    ensures i < |m.values| && TypedValue(s.fields[i].kind, m.values[i], depth)
  {
    hide TypedValue, ValidUnknown;
  }

  /** Whatever bytes are merged into a message of the right type, the outcome is one too. */
  lemma {:induction false} MergedIsTyped(s: Schema, m: Message, b: seq<byte>, depth: nat)
    requires |m.values| == |s.fields| && Typed(s, m, depth)
    ensures Merge(s, m, b, depth).Done? ==> Typed(s, Merge(s, m, b, depth).value, depth)
    decreases depth, |b|, 1
  {
    hide Typed, ReadVarint, FieldMerged;
    if b != [] && ReadVarint(b).Got? && ValidNumber(ReadVarint(b).value / 8) {
      var (tag, rest) := (ReadVarint(b).value, ReadVarint(b).rest);
      FieldStaysTyped(s, m, tag / 8, tag % 8, rest, depth);
      var r := FieldMerged(s, m, tag / 8, tag % 8, rest, depth);
      if r.Done? {
        MergedIsTyped(s, r.value, r.rest, depth);
      }
    }
  }

  /** What was decoded from any bytes, unknown fields and all, is decoded again when it is sent on. */
  lemma DecodedSurvives(s: Schema, b: seq<byte>, depth: nat)
    requires ValidSchema(s)
    ensures var r := Merge(s, Default(s), b, depth);
      r.Done? && |Enc(s, r.value)| < SIZE_LIMIT ==> Merge(s, Default(s), Enc(s, r.value), depth) == r
  {
    hide Enc, Typed, ValidSchema, Merge;
    DefaultIsTyped(s, depth);
    MergedIsTyped(s, Default(s), b, depth);
    var r := Merge(s, Default(s), b, depth);
    if r.Done? && |Enc(s, r.value)| < SIZE_LIMIT {
      RoundTrip(s, r.value, depth);
    }
  }

  /** Field numbers are from 1 to 2^29 - 1. */
  lemma ForbiddenNumbersAreRefused(s: Schema, m: Message, tag: u64, b: seq<byte>, depth: nat)
    requires |m.values| == |s.fields| && (tag < 8 || tag >= U32_LIMIT)
    ensures Merge(s, m, VarintBytes(tag) + b, depth) == Bad(BadInput)
  {
    hide ReadVarint, VarintBytes, FieldMerged;
    VarintInverts(tag, b);
  }

  /** A field of the schema on the wrong wire type is named in the error, whatever its content. */
  lemma WrongWireIsRefused(s: Schema, m: Message, i: nat, wire: nat, b: seq<byte>, depth: nat)
    requires ValidSchema(s) && |m.values| == |s.fields| && i < |s.fields| && wire < 8
    requires var k := s.fields[i].kind; wire != if k.StringKind? || k.MessagesKind? then 2 else 0
    ensures var f := s.fields[i];
      Merge(s, m, TagBytes(f.number, wire) + b, depth)
      == Bad(WireTypeMismatch(f.number, if f.kind.StringKind? || f.kind.MessagesKind? then 2 else 0, wire))
  {
    hide TagBytes, Merge;
    FieldIndexFinds(s, i, 0);
    MergeStep(s, m, s.fields[i].number, wire, b, depth);
  }

  /** Text that is not UTF-8 and messages nested past the limit are refused. */
  lemma BadContentIsRefused(s: Schema, m: Message, i: nat, x: seq<byte>, t: seq<byte>, depth: nat)
    requires ValidSchema(s) && |m.values| == |s.fields| && i < |s.fields| && |x| < U64_LIMIT
    requires var k := s.fields[i].kind;
      (k.StringKind? && Utf8.Decode(x).None?) || (k.MessagesKind? && depth == 0)
    ensures Merge(s, m, TagBytes(s.fields[i].number, LENGTH_DELIMITED) + (Delimited(x) + t), depth) == Bad(BadInput)
  {
    hide TagBytes, Merge, ReadDelimited, Delimited;
    FieldIndexFinds(s, i, 0);
    MergeStep(s, m, s.fields[i].number, LENGTH_DELIMITED, Delimited(x) + t, depth);
    DelimitedInverts(x, t);
  }

  /** A field the schema does not have needs its four or eight bytes; groups and unassigned wire types are refused. */
  lemma BadUnknownIsRefused(s: Schema, m: Message, number: nat, wire: nat, b: seq<byte>, depth: nat)
    requires |m.values| == |s.fields| && ValidNumber(number) && FieldIndex(s, number, 0) == None && wire < 8
    requires wire in {3, 4, 6, 7} || (wire == 5 && |b| < 4) || (wire == 1 && |b| < 8)
    ensures Merge(s, m, TagBytes(number, wire) + b, depth) == Bad(BadInput)
  {
    hide TagBytes, Merge;
    MergeStep(s, m, number, wire, b, depth);
  }

  // ---- the search and transfer messages ------------------------------------------

  const RESULT_FILE := Schema([
    Field(1, StringKind), Field(2, U64Kind), Field(3, U32Kind), Field(4, U32Kind), Field(5, BoolKind),
    Field(6, U32Kind), Field(7, U32Kind)])

  const SEARCH_RESULT := Schema([
    Field(1, StringKind), Field(2, BoolKind), Field(3, U32Kind), Field(4, U32Kind),
    Field(5, MessagesKind(RESULT_FILE))])

  const SEARCH := Schema([
    Field(1, U32Kind), Field(2, StringKind), Field(3, StringKind), Field(4, StringKind),
    Field(5, MessagesKind(SEARCH_RESULT)), Field(6, StringKind), Field(7, U32Kind)])

  const SEARCHES := Schema([Field(1, MessagesKind(SEARCH))])

  const DOWNLOAD := Schema([
    Field(1, StringKind), Field(2, StringKind), Field(3, EnumKind), Field(4, U32Kind), Field(5, StringKind),
    Field(6, StringKind), Field(7, U64Kind), Field(8, U64Kind), Field(9, StringKind), Field(10, StringKind)])

  const UPLOAD := Schema([
    Field(1, StringKind), Field(2, StringKind), Field(3, U64Kind), Field(4, U64Kind), Field(5, EnumKind),
    Field(6, StringKind)])

  const TRANSFERS := Schema([Field(1, MessagesKind(DOWNLOAD)), Field(2, MessagesKind(UPLOAD))])

  /** Small enough field numbers for every tag to be one byte, which the computed sizes count on. */
  predicate OneByteTags(s: Schema) {
    forall i :: 0 <= i < |s.fields| ==> |TagBytes(s.fields[i].number, ExpectedWire(s.fields[i].kind))| == 1
  }

  lemma NumberedFromOne(s: Schema)
    requires |s.fields| <= 15
    requires forall i :: 0 <= i < |s.fields| ==> s.fields[i].number == i + 1 && ValidKind(s.fields[i].kind)
    ensures ValidSchema(s) && OneByteTags(s)
  {
  }

  lemma FileSchemasAreValid()
    ensures ValidSchema(RESULT_FILE) && OneByteTags(RESULT_FILE)
    ensures ValidSchema(SEARCH_RESULT) && OneByteTags(SEARCH_RESULT)
  {
    hide ValidSchema, OneByteTags;
    NumberedFromOne(RESULT_FILE);
    NumberedFromOne(SEARCH_RESULT);
  }

  lemma SearchSchemasAreValid()
    ensures ValidSchema(SEARCH) && OneByteTags(SEARCH)
    ensures ValidSchema(SEARCHES) && OneByteTags(SEARCHES)
  {
    hide ValidSchema, OneByteTags;
    FileSchemasAreValid();
    NumberedFromOne(SEARCH);
    NumberedFromOne(SEARCHES);
  }

  lemma TransferSchemasAreValid()
    ensures ValidSchema(DOWNLOAD) && OneByteTags(DOWNLOAD)
    ensures ValidSchema(UPLOAD) && OneByteTags(UPLOAD)
    ensures ValidSchema(TRANSFERS) && OneByteTags(TRANSFERS)
  {
    hide ValidSchema, OneByteTags;
    NumberedFromOne(DOWNLOAD);
    NumberedFromOne(UPLOAD);
    NumberedFromOne(TRANSFERS);
  }
}
