/** Reading and writing the length-prefixed fields of the binary formats. */
module Wire {
  import opened Wrappers
  import opened Bytes
  import opened Text

  datatype TakeError = Short | Long(length: nat) | NotText

  // The next unsigned integer, and what is left behind it.
  function TakeUint(bytes: seq<byte>, width: nat): Result<(nat, seq<byte>), TakeError> {
    if |bytes| < width then Err(Short) else Ok((FromLE(bytes[..width]), bytes[width..]))
  }

  function PutBlock(block: seq<byte>, width: nat): seq<byte> { ToLE(|block|, width) + block }

  function TakeBlock(bytes: seq<byte>, width: nat, maximum: nat): Result<(seq<byte>, seq<byte>), TakeError> {
    var length :- TakeUint(bytes, width);
    if length.0 > maximum then Err(Long(length.0))
    else if |length.1| < length.0 then Err(Short)
    else Ok((length.1[..length.0], length.1[length.0..]))
  }

  function PutString(s: string, width: nat): seq<byte> { PutBlock(Utf8(s), width) }

  function TakeString(bytes: seq<byte>, width: nat, maximum: nat): Result<(string, seq<byte>), TakeError> {
    var block :- TakeBlock(bytes, width, maximum);
    match FromUtf8(block.0)
    case None => Err(NotText)
    case Some(s) => Ok((s, block.1))
  }

  lemma UintReads(n: nat, width: nat, rest: seq<byte>)
    requires n < Pow256(width)
    ensures TakeUint(ToLE(n, width) + rest, width) == Ok((n, rest))
  {
    FromToLE(n, width);
  }

  lemma UintIsRead(bytes: seq<byte>, width: nat)
    requires TakeUint(bytes, width).Ok?
    ensures var r := TakeUint(bytes, width).value; bytes == ToLE(r.0, width) + r.1 && r.0 < Pow256(width)
  {
    ToFromLE(bytes[..width]);
  }

  lemma BlockReads(block: seq<byte>, width: nat, maximum: nat, rest: seq<byte>)
    requires |block| <= maximum && |block| < Pow256(width)
    ensures TakeBlock(PutBlock(block, width) + rest, width, maximum) == Ok((block, rest))
  {
    hide ToLE, TakeUint;
    UintReads(|block|, width, block + rest);
    assert PutBlock(block, width) + rest == ToLE(|block|, width) + (block + rest);
  }

  lemma BlockIsRead(bytes: seq<byte>, width: nat, maximum: nat)
    requires TakeBlock(bytes, width, maximum).Ok?
    ensures var r := TakeBlock(bytes, width, maximum).value;
            bytes == PutBlock(r.0, width) + r.1 && |r.0| <= maximum && |r.0| < Pow256(width)
  {
    hide ToLE, TakeUint;
    UintIsRead(bytes, width);
  }

  lemma StringReads(s: string, width: nat, maximum: nat, rest: seq<byte>)
    requires Size(s) <= maximum && Size(s) < Pow256(width)
    ensures TakeString(PutString(s, width) + rest, width, maximum) == Ok((s, rest))
  {
    hide Utf8, FromUtf8, PutBlock, TakeBlock;
    BlockReads(Utf8(s), width, maximum, rest);
    FromToUtf8(s);
  }

  lemma StringIsRead(bytes: seq<byte>, width: nat, maximum: nat)
    requires TakeString(bytes, width, maximum).Ok?
    ensures var r := TakeString(bytes, width, maximum).value;
            bytes == PutString(r.0, width) + r.1 && Size(r.0) <= maximum && Size(r.0) < Pow256(width)
  {
    hide Utf8, FromUtf8, PutBlock, TakeBlock;
    BlockIsRead(bytes, width, maximum);
    ToFromUtf8(TakeBlock(bytes, width, maximum).value.0);
  }

  // A position in some bytes that only moves forward.
  class Cursor {
    const bytes: seq<byte>
    var at: nat

    ghost predicate Valid()
      reads this
    {
      at <= |bytes|
    }

    ghost function Rest(): seq<byte>
      reads this
      requires Valid()
    {
      bytes[at..]
    }

    constructor (bytes: seq<byte>, at: nat)
      requires at <= |bytes|
      ensures Valid() && this.bytes == bytes && this.at == at
    {
      this.bytes, this.at := bytes, at;
    }

    method Take(length: nat) returns (r: Option<seq<byte>>)
      requires Valid()
      modifies this`at
      ensures Valid()
      ensures if |old(Rest())| < length then r == None && Rest() == old(Rest())
              else r == Some(old(Rest())[..length]) && Rest() == old(Rest())[length..]
    {
      var end := at + length;
      if end > |bytes| {
        return None;
      }
      assert bytes[at..end] == bytes[at..][..length] && bytes[end..] == bytes[at..][length..];
      r := Some(bytes[at..end]);
      at := end;
    }

    method Uint(width: nat) returns (r: Result<nat, TakeError>)
      requires Valid()
      modifies this`at
      ensures Valid()
      ensures var spec := TakeUint(old(Rest()), width);
              if spec.Ok? then r == Ok(spec.value.0) && Rest() == spec.value.1 else r == Err(spec.error)
    {
      var taken := Take(width);
      match taken
      case None => return Err(Short);
      case Some(bytes) => return Ok(FromLE(bytes));
    }

    method Block(width: nat, maximum: nat) returns (r: Result<seq<byte>, TakeError>)
      requires Valid()
      modifies this`at
      ensures Valid()
      ensures var spec := TakeBlock(old(Rest()), width, maximum);
              if spec.Ok? then r == Ok(spec.value.0) && Rest() == spec.value.1 else r == Err(spec.error)
    {
      hide TakeUint;
      var length :- Uint(width);
      if length > maximum {
        return Err(Long(length));
      }
      var taken := Take(length);
      match taken
      case None => return Err(Short);
      case Some(block) => return Ok(block);
    }

    method Str(width: nat, maximum: nat) returns (r: Result<string, TakeError>)
      requires Valid()
      modifies this`at
      ensures Valid()
      ensures var spec := TakeString(old(Rest()), width, maximum);
              if spec.Ok? then r == Ok(spec.value.0) && Rest() == spec.value.1 else r == Err(spec.error)
    {
      hide TakeBlock, FromUtf8;
      var block :- Block(width, maximum);
      match FromUtf8(block)
      case None => return Err(NotText);
      case Some(s) => return Ok(s);
    }
  }
}
