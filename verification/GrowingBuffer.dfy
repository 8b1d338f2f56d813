/** A heap buffer that is reallocated to a larger capacity and appended to in place. */
module GrowingBuffer {
  import opened Bits

  class Buffer {
    var data: array<Byte>
    var len: nat

    ghost predicate Valid()
      reads this
    {
      len <= data.Length
    }

    ghost function Contents(): (s: seq<Byte>)
      requires Valid()
      reads this, data
    {
      data[..len]
    }

    constructor ()
      ensures Valid() && fresh(data) && data.Length == 0 && Contents() == []
    {
      data := new Byte[0];
      len := 0;
    }

    /** realloc: a block of the new size that starts with the old bytes. */
    method Grow(capacity: nat)
      requires Valid() && data.Length <= capacity
      modifies this`data
      ensures Valid() && fresh(data) && data.Length == capacity
      ensures Contents() == old(Contents())
    {
      var bigger := new Byte[capacity](_ => 0);
      for i := 0 to len
        modifies bigger
        invariant bigger[..i] == data[..i]
      {
        bigger[i] := data[i];
      }
      data := bigger;
    }

    /** memcpy to the end, within the capacity. */
    method Append(s: seq<Byte>)
      requires Valid() && len + |s| <= data.Length
      modifies this`len, data
      ensures Valid() && Contents() == old(Contents()) + s
    {
      for i := 0 to |s|
        modifies data
        invariant data[..len] == old(data[..len])
        invariant data[len..len + i] == s[..i]
      {
        data[len + i] := s[i];
      }
      assert data[..len + |s|] == data[..len] + data[len..len + |s|];
      len := len + |s|;
    }
  }
}
