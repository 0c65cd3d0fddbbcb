// A block of the host's memory: a byte array, with its contents as a value.
module Memory {
  import opened Words

  ghost predicate SameOutside(m: seq<uint8>, m': seq<uint8>, lo: nat, hi: nat) {
    |m| == |m'| && forall x | 0 <= x < |m| && !(lo <= x < hi) :: m'[x] == m[x]
  }

  class Memory {
    const data: array<uint8>
    ghost var bytes: seq<uint8>

    ghost predicate Valid()
      reads this, data
    {
      bytes == data[..]
    }

    constructor (n: nat)
      ensures Valid() && |bytes| == n && fresh(data)
    {
      data := new uint8[n];
      new;
      bytes := data[..];
    }

    function Get(a: nat): (v: uint8)
      reads this, data
      requires Valid() && a < |bytes|
      ensures v == bytes[a]
    {
      data[a]
    }

    function Get32(a: nat): (v: word)
      reads this, data
      requires Valid() && a + 4 <= |bytes|
      ensures v == Load32(bytes, a)
    {
      data[a] as int + 0x100 * (data[a + 1] as int + 0x100 * (data[a + 2] as int + 0x100 * data[a + 3] as int))
    }

    method Set(a: nat, v: uint8)
      requires Valid() && a < |bytes|
      modifies this, data
      ensures Valid() && bytes[..] == old(bytes)[a := v]
    {
      data[a] := v;
      bytes := bytes[a := v];
    }

    method Set32(a: nat, v: word)
      requires Valid() && a + 4 <= |bytes|
      modifies this, data
      ensures Valid() && SameOutside(old(bytes), bytes, a, a + 4) && Load32(bytes, a) == v
    {
      data[a] := Byte(v);
      data[a + 1] := Byte(v / 0x100);
      data[a + 2] := Byte(v / 0x1_0000);
      data[a + 3] := Byte(v / 0x100_0000);
      bytes := data[..];
      BytesLoadBack(bytes, a, v);
    }

    method Read(a: nat, n: nat) returns (s: seq<uint8>)
      requires Valid() && a + n <= |bytes|
      ensures s == bytes[a..a + n]
    {
      s := [];
      for i := 0 to n
        invariant s == bytes[a..a + i]
      {
        s := s + [Get(a + i)];
      }
    }

    // memset
    method Fill(a: nat, n: nat, v: uint8)
      requires Valid() && a + n <= |bytes|
      modifies this, data
      ensures Valid() && SameOutside(old(bytes), bytes, a, a + n)
      ensures forall x | a <= x < a + n :: bytes[x] == v
    {
      for i := 0 to n
        invariant Valid() && SameOutside(old(bytes), bytes, a, a + i)
        invariant forall x | a <= x < a + i :: bytes[x] == v
      {
        Set(a + i, v);
      }
    }

    // memcpy
    method Copy(dst: nat, src: nat, n: nat)
      requires Valid() && dst + n <= |bytes| && src + n <= |bytes|
      requires dst + n <= src || src + n <= dst
      modifies this, data
      ensures Valid() && SameOutside(old(bytes), bytes, dst, dst + n)
      ensures bytes[dst..dst + n] == old(bytes)[src..src + n]
    {
      for i := 0 to n
        invariant Valid() && SameOutside(old(bytes), bytes, dst, dst + i)
        invariant bytes[dst..dst + i] == old(bytes)[src..src + i]
      {
        Set(dst + i, Get(src + i));
      }
    }
  }
}
