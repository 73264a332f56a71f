/** Values as the bus decoder delivers them, and the readers of internal/dbusval/value.go. */
module DBusValue {
  import opened Utf8
  import opened Wrappers
  import opened Protocol

  type int64 = x: int | -0x8000_0000_0000_0000 <= x <= 0x7FFF_FFFF_FFFF_FFFF

  datatype Value =
    | StringValue(text: Text)
    | PathValue(text: Text)
    | BoolValue(flag: bool)
    | SignedValue(signed: int64)
    | UnsignedValue(unsigned: uint64)
    | BytesValue(data: seq<byte>)
    | ListValue(elements: seq<Value>)
    | StructValue(fields: seq<Value>)
    | DictValue(entries: map<string, Value>)
    | VariantValue(inner: Value)
    | OtherValue

  function Indirect(v: Value): (r: Value)
    ensures !r.VariantValue?
  {
    if v.VariantValue? then Indirect(v.inner) else v
  }

  function IndirectAll(vs: seq<Value>): seq<Value> {
    seq(|vs|, i requires 0 <= i < |vs| => Indirect(vs[i]))
  }

  function ByteValues(data: seq<byte>): seq<Value> {
    seq(|data|, i requires 0 <= i < |data| => UnsignedValue(data[i]))
  }

  /** The first `want` fields of a struct; a list or a byte array is read the same way. */
  function Tuple(v: Value, want: nat): (r: Option<seq<Value>>)
    ensures r.Some? ==> |r.value| == want
  {
    match Indirect(v)
    case StructValue(fields) => if |fields| < want then None else Some(IndirectAll(fields[..want]))
    case ListValue(elements) => if |elements| < want then None else Some(IndirectAll(elements[..want]))
    case BytesValue(data) => if |data| < want then None else Some(ByteValues(data[..want]))
    case _ => None
  }

  function Elements(v: Value): Option<seq<Value>> {
    match Indirect(v)
    case ListValue(elements) => Some(IndirectAll(elements))
    case BytesValue(data) => Some(ByteValues(data))
    case _ => None
  }

  function StringOf(v: Value): Text {
    match Indirect(v)
    case StringValue(text) => text
    case PathValue(text) => text
    case _ => []
  }

  function BoolOf(v: Value, fallback: bool): bool {
    match Indirect(v)
    case BoolValue(flag) => flag
    case _ => fallback
  }

  /** Any integer; an unsigned one above 32 bits is refused. */
  function IntOf(v: Value): Option<int64> {
    match Indirect(v)
    case SignedValue(n) => Some(n)
    case UnsignedValue(n) => if n > 0xFFFF_FFFF then None else Some(n)
    case _ => None
  }

  function BytesOf(v: Value): Option<seq<byte>> {
    match Indirect(v)
    case BytesValue(data) => Some(data)
    case _ => None
  }

  /** The bus decoder gives a struct as a struct or as a list, wraps values in variants to any depth, and
      picks its own integer type; none of that changes what is read. */
  lemma ShapesAgree(v: Value, fields: seq<Value>, data: seq<byte>, n: uint64, text: Text, want: nat)
    ensures Tuple(ListValue(fields), want) == Tuple(StructValue(fields), want)
    ensures Tuple(BytesValue(data), want) == Tuple(ListValue(ByteValues(data)), want)
    ensures Elements(BytesValue(data)) == Elements(ListValue(ByteValues(data)))
    ensures Tuple(VariantValue(v), want) == Tuple(v, want) && Elements(VariantValue(v)) == Elements(v)
    ensures BytesOf(VariantValue(v)) == BytesOf(v) && IntOf(VariantValue(v)) == IntOf(v)
    ensures StringOf(VariantValue(v)) == StringOf(v)
    ensures BoolOf(VariantValue(v), true) == BoolOf(v, true) && BoolOf(VariantValue(v), false) == BoolOf(v, false)
    ensures IntOf(UnsignedValue(n)) == if n <= 0xFFFF_FFFF then IntOf(SignedValue(n)) else None
    ensures StringOf(PathValue(text)) == StringOf(StringValue(text)) == text
  {
    assert forall i :: 0 <= i < |data| ==> Indirect(ByteValues(data)[i]) == ByteValues(data)[i];
    assert IndirectAll(ByteValues(data)) == ByteValues(data);
    if want <= |data| {
      assert ByteValues(data)[..want] == ByteValues(data[..want]);
      assert IndirectAll(ByteValues(data)[..want]) == ByteValues(data[..want]);
    }
  }

  /** Size measures that justify the recursion of tree conversion. */
  ghost function Rank(v: Value): nat {
    match v
    case BytesValue(data) => 1 + |data|
    case ListValue(elements) => 1 + RankAll(elements)
    case StructValue(fields) => 1 + RankAll(fields)
    case VariantValue(inner) => 1 + Rank(inner)
    case _ => 0
  }

  ghost function RankAll(vs: seq<Value>): nat {
    if vs == [] then 0 else 1 + Rank(vs[0]) + RankAll(vs[1..])
  }

  lemma {:induction false} IndirectRank(v: Value)
    ensures Rank(Indirect(v)) <= Rank(v)
  {
    if v.VariantValue? {
      IndirectRank(v.inner);
    }
  }

  lemma {:induction false} IndirectAllRank(vs: seq<Value>)
    ensures RankAll(IndirectAll(vs)) <= RankAll(vs)
  {
    if vs == [] {
    } else {
      IndirectRank(vs[0]);
      IndirectAllRank(vs[1..]);
      assert IndirectAll(vs)[1..] == IndirectAll(vs[1..]);
    }
  }

  lemma {:induction false} ByteValuesRank(data: seq<byte>)
    ensures RankAll(ByteValues(data)) == |data|
  {
    if data == [] {
    } else {
      ByteValuesRank(data[1..]);
      assert ByteValues(data)[1..] == ByteValues(data[1..]);
    }
  }

  lemma {:induction false} ElementRank(vs: seq<Value>, i: nat)
    requires i < |vs|
    ensures Rank(vs[i]) < RankAll(vs)
  {
    if i == 0 {
    } else {
      ElementRank(vs[1..], i - 1);
    }
  }

  lemma ElementsRank(v: Value)
    ensures Elements(v).Some? ==> RankAll(Elements(v).value) < Rank(v)
  {
    IndirectRank(v);
    match Indirect(v)
    case ListValue(elements) => IndirectAllRank(elements);
    case BytesValue(data) => ByteValuesRank(data);
    case _ =>
  }

  lemma TupleRank(v: Value, want: nat, i: nat)
    requires i < want && Tuple(v, want).Some?
    ensures Rank(Tuple(v, want).value[i]) < Rank(v)
  {
    IndirectRank(v);
    match Indirect(v)
    case StructValue(fields) => ElementRank(fields, i); IndirectRank(fields[i]);
    case ListValue(elements) => ElementRank(elements, i); IndirectRank(elements[i]);
    case BytesValue(data) =>
    case _ =>
  }
}
