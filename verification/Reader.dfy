/** A bounds-checked cursor over bytes, and the pure reading functions it is proved against. */
module Reader {
  import opened Bytes
  import Varint

  datatype ReadError = UnexpectedEnd | BadVarInt(error: Varint.VarIntError)

  /** A read from the front of a byte string: the value and what is left unread. */
  type Parsed<+T> = Result<(T, seq<u8>), ReadError>

  function TakeBytes(s: seq<u8>, count: nat): Parsed<seq<u8>> {
    if count <= |s| then Ok((s[..count], s[count..])) else Err(UnexpectedEnd)
  }

  function TakeU32(s: seq<u8>): Parsed<u32> {
    var (field, rest) :- TakeBytes(s, 4);
    LittleEndianBound(field); Pow256Values();
    Ok((FromLittleEndian(field), rest))
  }

  function TakeI32(s: seq<u8>): Parsed<i32> {
    var (value, rest) :- TakeU32(s);
    Ok((Signed(value), rest))
  }

  function TakeU64(s: seq<u8>): Parsed<u64> {
    var (field, rest) :- TakeBytes(s, 8);
    LittleEndianBound(field); Pow256Values();
    Ok((FromLittleEndian(field), rest))
  }

  function TakeHash(s: seq<u8>): Parsed<Hash> {
    var (field, rest) :- TakeBytes(s, 32);
    Ok((field, rest))
  }

  function TakeVarint(s: seq<u8>): Parsed<u64> {
    match Varint.Decode(s)
    case Ok((value, used)) => Ok((value, s[used..]))
    case Err(error) => Err(BadVarInt(error))
  }

  function TakeVarBytes(s: seq<u8>): Parsed<Vec<u8>> {
    var (length, rest) :- TakeVarint(s);
    var (data, rest) :- TakeBytes(rest, length);
    Ok((data, rest))
  }

  /** The wire form of a length-prefixed byte string. */
  function VarBytes(data: Vec<u8>): seq<u8> {
    Varint.Encoding(|data|) + data
  }

  /** A cursor call reports and consumes exactly what the pure read of the unread bytes does. */
  ghost predicate Agrees<T(!new)>(result: Result<T, ReadError>, spec: Parsed<T>, unread: seq<u8>) {
    match spec
    case Ok((value, rest)) => result == Ok(value) && unread == rest
    case Err(error) => result == Err(error)
  }

  class Reader {
    const bytes: seq<u8>
    var position: nat

    ghost predicate Valid() reads this { position <= |bytes| }

    ghost function Unread(): seq<u8>
      requires Valid()
      reads this
    { bytes[position..] }

    constructor (bytes: seq<u8>)
      ensures Valid() && Unread() == bytes
    {
      this.bytes := bytes;
      position := 0;
    }

    method Remaining() returns (n: nat)
      requires Valid()
      ensures n == |Unread()|
    {
      n := |bytes| - position;
    }

    method IsEmpty() returns (empty: bool)
      requires Valid()
      ensures empty <==> Unread() == []
    {
      var n := Remaining();
      empty := n == 0;
    }

    method ReadBytes(count: nat) returns (r: Result<seq<u8>, ReadError>)
      requires Valid()
      modifies this
      ensures Valid() && Agrees(r, TakeBytes(old(Unread()), count), Unread())
      ensures r.Err? ==> position == old(position)
    {
      var end := position + count;
      if end > |bytes| {
        return Err(UnexpectedEnd);
      }
      assert bytes[position..end] == Unread()[..count] && bytes[end..] == Unread()[count..];
      r := Ok(bytes[position..end]);
      position := end;
    }

    method ReadU32() returns (r: Result<u32, ReadError>)
      requires Valid()
      modifies this
      ensures Valid() && Agrees(r, TakeU32(old(Unread())), Unread())
    {
      var field :- ReadBytes(4);
      LittleEndianBound(field); Pow256Values();
      r := Ok(FromLittleEndian(field));
    }

    method ReadI32() returns (r: Result<i32, ReadError>)
      requires Valid()
      modifies this
      ensures Valid() && Agrees(r, TakeI32(old(Unread())), Unread())
    {
      var value :- ReadU32();
      r := Ok(Signed(value));
    }

    method ReadU64() returns (r: Result<u64, ReadError>)
      requires Valid()
      modifies this
      ensures Valid() && Agrees(r, TakeU64(old(Unread())), Unread())
    {
      var field :- ReadBytes(8);
      LittleEndianBound(field); Pow256Values();
      r := Ok(FromLittleEndian(field));
    }

    method ReadHash() returns (r: Result<Hash, ReadError>)
      requires Valid()
      modifies this
      ensures Valid() && Agrees(r, TakeHash(old(Unread())), Unread())
    {
      var field :- ReadBytes(32);
      r := Ok(field);
    }

    method ReadVarint() returns (r: Result<u64, ReadError>)
      requires Valid()
      modifies this
      ensures Valid() && Agrees(r, TakeVarint(old(Unread())), Unread())
      ensures r.Err? ==> position == old(position)
    {
      match Varint.Decode(bytes[position..])
      case Err(error) => r := Err(BadVarInt(error));
      case Ok((value, used)) =>
        position := position + used;
        r := Ok(value);
    }

    method ReadVarBytes() returns (r: Result<Vec<u8>, ReadError>)
      requires Valid()
      modifies this
      ensures Valid() && Agrees(r, TakeVarBytes(old(Unread())), Unread())
    {
      var length :- ReadVarint();
      var data :- ReadBytes(length);
      r := Ok(data);
    }
  }

  // Each pure read undoes its printer, whatever follows, and accepts nothing but the printer's output.

  lemma TakeU32Inverse(value: u32, rest: seq<u8>)
    ensures TakeU32(LittleEndian(value, 4) + rest) == Ok((value, rest))
  {
    Pow256Values();
    LittleEndianDecodes(value, 4);
    assert (LittleEndian(value, 4) + rest)[..4] == LittleEndian(value, 4);
    assert (LittleEndian(value, 4) + rest)[4..] == rest;
  }

  lemma TakeU32Sound(s: seq<u8>)
    requires TakeU32(s).Ok?
    ensures var (value, rest) := TakeU32(s).value; s == LittleEndian(value, 4) + rest
  {
    LittleEndianEncodes(s[..4]);
  }

  lemma TakeI32Inverse(value: i32, rest: seq<u8>)
    ensures TakeI32(LittleEndian(Unsigned(value), 4) + rest) == Ok((value, rest))
  {
    TakeU32Inverse(Unsigned(value), rest);
  }

  lemma TakeI32Sound(s: seq<u8>)
    requires TakeI32(s).Ok?
    ensures var (value, rest) := TakeI32(s).value; s == LittleEndian(Unsigned(value), 4) + rest
  {
    TakeU32Sound(s);
  }

  lemma TakeU64Inverse(value: u64, rest: seq<u8>)
    ensures TakeU64(LittleEndian(value, 8) + rest) == Ok((value, rest))
  {
    Pow256Values();
    LittleEndianDecodes(value, 8);
    assert (LittleEndian(value, 8) + rest)[..8] == LittleEndian(value, 8);
    assert (LittleEndian(value, 8) + rest)[8..] == rest;
  }

  lemma TakeU64Sound(s: seq<u8>)
    requires TakeU64(s).Ok?
    ensures var (value, rest) := TakeU64(s).value; s == LittleEndian(value, 8) + rest
  {
    LittleEndianEncodes(s[..8]);
  }

  lemma TakeHashInverse(hash: Hash, rest: seq<u8>)
    ensures TakeHash(hash + rest) == Ok((hash, rest))
  {
    assert (hash + rest)[..32] == hash;
    assert (hash + rest)[32..] == rest;
  }

  lemma TakeVarintInverse(value: u64, rest: seq<u8>)
    ensures TakeVarint(Varint.Encoding(value) + rest) == Ok((value, rest))
  {
    Varint.DecodeEncoding(value, rest);
    assert (Varint.Encoding(value) + rest)[Varint.EncodedLen(value)..] == rest;
  }

  lemma TakeVarintSound(s: seq<u8>)
    requires TakeVarint(s).Ok?
    ensures var (value, rest) := TakeVarint(s).value; s == Varint.Encoding(value) + rest
  {
    Varint.DecodeIsCanonical(s);
    var used := Varint.Decode(s).value.1;
    assert s == s[..used] + s[used..];
  }

  lemma TakeVarBytesInverse(data: Vec<u8>, rest: seq<u8>)
    ensures TakeVarBytes(VarBytes(data) + rest) == Ok((data, rest))
  {
    assert VarBytes(data) + rest == Varint.Encoding(|data|) + (data + rest);
    TakeVarintInverse(|data|, data + rest);
    assert (data + rest)[..|data|] == data;
    assert (data + rest)[|data|..] == rest;
  }

  lemma TakeVarBytesSound(s: seq<u8>)
    requires TakeVarBytes(s).Ok?
    ensures var (data, rest) := TakeVarBytes(s).value; s == VarBytes(data) + rest
  {
    TakeVarintSound(s);
    var (length, rest) := TakeVarint(s).value;
    assert rest == rest[..length] + rest[length..];
  }
}
