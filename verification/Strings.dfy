/** The byte buffer of a `KString`, and strings as map keys (src/kstring.c). */
module Strings {
  import opened References
  import opened Hash
  import opened MapModel

  /** What becomes of a new string: `NullCopy` when bytes are copied to a buffer that could
      not be had. */
  datatype Creation = Made | Refused | NullCopy

  /** `KStringNewWithData`. Without a buffer, an empty string is refused, and the bytes of
      any other are copied to NULL; nothing is promised then. */
  method NewWithData(ledger: Ledger, data: seq<Byte>) returns (outcome: Creation, str: KString?)
    modifies ledger`asked
    ensures outcome.Made? <==> ledger.grants(old(ledger.asked)) && ledger.grants(old(ledger.asked) + 1)
    ensures outcome.NullCopy? <==>
            ledger.grants(old(ledger.asked)) && !ledger.grants(old(ledger.asked) + 1) && data != []
    ensures outcome.Made? <==> str != null
    ensures str != null ==> fresh(str) && fresh(str.buffer) && str.Valid() && str.Contents() == data
  {
    var haveString := ledger.Allocate();
    if !haveString {
      return Refused, null;
    }
    var haveBuffer := ledger.Allocate();
    if !haveBuffer {
      return if |data| == 0 then Refused else NullCopy, null;
    }
    str := new KString(data);
    return Made, str;
  }

  class KString {
    var size: nat
    var buffer: array<Byte>

    ghost predicate Valid()
      reads this
    {
      size <= buffer.Length
    }

    ghost function Contents(): seq<Byte>
      requires Valid()
      reads this, buffer
    {
      buffer[..size]
    }

    /** A string whose memory could be had. */
    constructor (data: seq<Byte>)
      ensures Valid() && Contents() == data && fresh(buffer)
    {
      size := |data|;
      buffer := new Byte[|data|](i requires 0 <= i < |data| => data[i]);
    }

    /** `suffix` may be the string itself. The buffer is replaced before the bytes of
        `suffix` are read, so they are then read from the new buffer. */
    method Append(ledger: Ledger, suffix: KString) returns (ok: bool)
      requires Valid() && suffix.Valid()
      requires suffix != this ==> suffix.buffer != buffer
      modifies this, buffer, ledger`asked
      ensures Valid()
      ensures ok == ledger.grants(old(ledger.asked))
      ensures ok ==> Contents() == old(Contents() + suffix.Contents())
      ensures ok && size > 0 ==> size < buffer.Length && buffer[size] == 0
      ensures ok ==> fresh(buffer)
      ensures !ok ==> buffer == old(buffer) && Contents() == old(Contents())
      ensures suffix != this ==> suffix.Valid() && suffix.Contents() == old(suffix.Contents())
    {
      ok := Reallocate(ledger, size + suffix.size + 1);
      if ok {
        Write(suffix.buffer, suffix.size);
        size := size + suffix.size;
        if size != 0 {
          buffer[size] := 0;
        }
      }
    }

    /** `realloc` to a larger size: a new buffer that begins with the old bytes. */
    method Reallocate(ledger: Ledger, newSize: nat) returns (ok: bool)
      requires Valid() && size <= newSize
      modifies this`buffer, ledger`asked
      ensures Valid() && Contents() == old(Contents())
      ensures ok == ledger.grants(old(ledger.asked))
      ensures if ok then fresh(buffer) && buffer.Length == newSize else buffer == old(buffer)
    {
      ok := ledger.Allocate();
      if ok {
        var grown := new Byte[newSize];
        forall i | 0 <= i < size {
          grown[i] := buffer[i];
        }
        assert grown[..size] == buffer[..size];
        buffer := grown;
      }
    }

    /** `memmove` of `count` bytes to the end of the string; the source may be its buffer. */
    method Write(source: array<Byte>, count: nat)
      requires count <= source.Length && size + count <= buffer.Length && (source == buffer ==> count <= size)
      modifies buffer
      ensures buffer[..size + count] == old(buffer[..size] + source[..count])
    {
      var start := size;
      forall i | 0 <= i < count {
        buffer[start + i] := source[i];
      }
    }
  }

  /** `KStringIsEqual` of two strings that are not NULL: identity is tried first. */
  predicate IsEqual(data: Ref -> seq<Byte>, lhs: Ref, rhs: Ref) {
    if lhs == rhs then true
    else if |data(lhs)| != |data(rhs)| then false
    else data(lhs) == data(rhs)
  }

  /** A map keyed by strings, `data` giving the bytes of every string object. */
  function StringKeying(data: Ref -> seq<Byte>): Keying {
    Keying((r: Ref) => StringHash(data(r)), (lhs: Ref, rhs: Ref) => IsEqual(data, lhs, rhs))
  }

  /** The string callbacks meet what the map demands: equality is equality of the bytes, and
      equal strings hash alike. */
  lemma StringKeyingIsLawful(data: Ref -> seq<Byte>)
    ensures StringKeying(data).Lawful()
    ensures forall lhs: Ref, rhs: Ref :: StringKeying(data).equal(lhs, rhs) <==> data(lhs) == data(rhs)
  {}
}
