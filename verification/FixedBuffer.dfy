/** `FixedBuffer`: a character array with a write position.  Text that does not fit is dropped. */
module FixedBuffers {

  class FixedBuffer {
    const data: array<char>
    var cur: nat

    ghost predicate Valid()
      reads this
    {
      cur <= data.Length
    }

    ghost function Text(): string
      requires Valid()
      reads this, data
    {
      data[..cur]
    }

    constructor (size: nat)
      ensures Valid() && Text() == [] && data.Length == size && fresh(data)
    {
      data := new char[size];
      cur := 0;
    }

    function Avail(): int
      reads this
    {
      data.Length - cur
    }

    /** Appends the text if more than its length is available, and otherwise drops all of it. */
    method Append(text: string)
      requires Valid()
      modifies this, data
      ensures Valid()
      ensures Text() == if data.Length - old(cur) > |text| then old(Text()) + text else old(Text())
    {
      if Avail() > |text| {
        forall i | 0 <= i < |text| {
          data[cur + i] := text[i];
        }
        cur := cur + |text|;
        assert data[..cur] == old(Text()) + text;
      }
    }

    /** `add`: takes over `len` characters that were written behind `current()`. */
    method Add(len: nat)
      requires Valid() && len <= Avail()
      modifies this
      ensures Valid() && Text() == old(Text()) + data[old(cur)..old(cur) + len]
    {
      cur := cur + len;
    }

    method Reset()
      modifies this
      ensures Valid() && Text() == []
    {
      cur := 0;
    }
  }
}
