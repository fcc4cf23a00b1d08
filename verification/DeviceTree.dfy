/** Memory sizes from the `reg` property of a device-tree memory node: tuples of an address and
    a size, in big-endian 32-bit cells. */
module DeviceTree {
  import opened Wrappers

  type Byte = x: int | 0 <= x < 256

  const U64_MAX := 0xFFFF_FFFF_FFFF_FFFF
  const USIZE_MAX := 0xFFFF_FFFF_FFFF_FFFF
  const TWO_TO_THE_32 := 0x1_0000_0000

  function At(bytes: seq<Byte>, i: nat): nat
    requires i < |bytes|
  {
    bytes[i]
  }

  /** The number that a run of bytes stands for, most significant byte first. */
  function BigEndian(bytes: seq<Byte>): nat {
    if bytes == [] then 0 else BigEndian(bytes[..|bytes| - 1]) * 256 + At(bytes, |bytes| - 1)
  }

  function ParseU32(bytes: seq<Byte>): Option<nat> {
    if |bytes| < 4 then None
    else Some(At(bytes, 0) * 0x100_0000 + At(bytes, 1) * 0x1_0000 + At(bytes, 2) * 0x100 + At(bytes, 3))
  }

  lemma FourBytes(bytes: seq<Byte>)
    requires |bytes| == 4
    ensures BigEndian(bytes) == At(bytes, 0) * 0x100_0000 + At(bytes, 1) * 0x1_0000 + At(bytes, 2) * 0x100 + At(bytes, 3) < TWO_TO_THE_32
  {
    var b3, b2, b1, b0 := bytes[..3], bytes[..2], bytes[..1], bytes[..0];
    assert b3[..2] == b2 && b2[..1] == b1 && b1[..0] == b0 == [];
    assert BigEndian(b1) == At(bytes, 0);
    assert BigEndian(b2) == At(bytes, 0) * 256 + At(bytes, 1);
    assert BigEndian(b3) == (At(bytes, 0) * 256 + At(bytes, 1)) * 256 + At(bytes, 2);
  }

  lemma OneCellMore(bytes: seq<Byte>, n: nat)
    requires n + 4 <= |bytes|
    ensures BigEndian(bytes[..n + 4]) == BigEndian(bytes[..n]) * TWO_TO_THE_32 + BigEndian(bytes[n..n + 4])
  {
    var c := bytes[n..n + 4];
    FourBytes(c);
    assert bytes[..n + 4][..n + 3] == bytes[..n + 3] && bytes[..n + 3][..n + 2] == bytes[..n + 2];
    assert bytes[..n + 2][..n + 1] == bytes[..n + 1] && bytes[..n + 1][..n] == bytes[..n];
    assert BigEndian(bytes[..n + 1]) == BigEndian(bytes[..n]) * 256 + At(c, 0);
    assert BigEndian(bytes[..n + 2]) == BigEndian(bytes[..n + 1]) * 256 + At(c, 1);
    assert BigEndian(bytes[..n + 3]) == BigEndian(bytes[..n + 2]) * 256 + At(c, 2);
    assert BigEndian(bytes[..n + 4]) == BigEndian(bytes[..n + 3]) * 256 + At(c, 3);
  }

  /** `parse_device_tree_cell_value`: the loop shifts by one cell and adds the next. With at
      most two cells the shift never loses a bit. */
  method ParseCellValue(bytes: seq<Byte>, cells: nat) returns (r: Option<nat>)
    ensures r == if cells > 2 || |bytes| < cells * 4 then None else Some(BigEndian(bytes[..cells * 4]))
    ensures r.Some? ==> r.value <= U64_MAX
  {
    if cells > 2 || |bytes| < cells * 4 {
      return None;
    }
    var value := 0;
    var i := 0;
    while i < cells
      invariant 0 <= i <= cells
      invariant value == BigEndian(bytes[..i * 4])
      invariant if i == 0 then value == 0 else if i == 1 then value < TWO_TO_THE_32 else value <= U64_MAX
    {
      var chunk := bytes[i * 4..i * 4 + 4];
      OneCellMore(bytes, i * 4);
      FourBytes(chunk);
      value := value * TWO_TO_THE_32 + ParseU32(chunk).value;
      i := i + 1;
    }
    r := Some(value);
  }

  /** The size in the i-th tuple. */
  function TupleSize(bytes: seq<Byte>, addressCells: nat, sizeCells: nat, i: nat): nat
    requires (i + 1) * ((addressCells + sizeCells) * 4) <= |bytes|
  {
    var start := i * ((addressCells + sizeCells) * 4) + addressCells * 4;
    assert start + sizeCells * 4 == (i + 1) * ((addressCells + sizeCells) * 4) by {
      TupleEnds((addressCells + sizeCells) * 4, i);
    }
    BigEndian(bytes[start..start + sizeCells * 4])
  }

  lemma TupleEnds(width: nat, i: nat)
    ensures i * width + width == (i + 1) * width && i * width >= 0
  {
  }

  function TotalSize(bytes: seq<Byte>, addressCells: nat, sizeCells: nat, n: nat): nat
    requires n * ((addressCells + sizeCells) * 4) <= |bytes|
  {
    if n == 0 then 0
    else
      TupleEnds((addressCells + sizeCells) * 4, n - 1);
      TotalSize(bytes, addressCells, sizeCells, n - 1) + TupleSize(bytes, addressCells, sizeCells, n - 1)
  }

  lemma {:induction false} TotalGrows(bytes: seq<Byte>, addressCells: nat, sizeCells: nat, m: nat, n: nat)
    requires m <= n && n * ((addressCells + sizeCells) * 4) <= |bytes|
    ensures m * ((addressCells + sizeCells) * 4) <= |bytes|
    ensures TotalSize(bytes, addressCells, sizeCells, m) <= TotalSize(bytes, addressCells, sizeCells, n)
  {
    if m < n {
      TupleEnds((addressCells + sizeCells) * 4, n - 1);
      TotalGrows(bytes, addressCells, sizeCells, m, n - 1);
    }
  }

  /** The bytes are a whole number of tuples, and the tuple width fits. */
  predicate Aligned(bytes: seq<Byte>, addressCells: nat, sizeCells: nat) {
    var width := (addressCells + sizeCells) * 4;
    0 < width <= USIZE_MAX && |bytes| % width == 0
  }

  function Tuples(bytes: seq<Byte>, addressCells: nat, sizeCells: nat): (n: nat)
    requires Aligned(bytes, addressCells, sizeCells)
    ensures n * ((addressCells + sizeCells) * 4) == |bytes|
  {
    |bytes| / ((addressCells + sizeCells) * 4)
  }

  /** The exact sum of the sizes encoded in the tuples; none on misalignment, on overflow, or
      when a tuple has more than two size cells. */
  predicate IsTotal(bytes: seq<Byte>, addressCells: nat, sizeCells: nat, r: Option<nat>) {
    if !Aligned(bytes, addressCells, sizeCells) then r.None?
    else
      var n := Tuples(bytes, addressCells, sizeCells);
      r == if n > 0 && sizeCells > 2 then None
           else if TotalSize(bytes, addressCells, sizeCells, n) > U64_MAX then None
           else Some(TotalSize(bytes, addressCells, sizeCells, n))
  }

  /** Where a tuple lies: after as many bytes as the tuples before it have, an address and then
      the size that counts. */
  lemma TupleIs(before: seq<Byte>, address: seq<Byte>, size: seq<Byte>, after: seq<Byte>, addressCells: nat, sizeCells: nat, i: nat)
    requires |address| == addressCells * 4 && |size| == sizeCells * 4 && |before| == i * (|address| + |size|)
    ensures (i + 1) * ((addressCells + sizeCells) * 4) <= |before + address + size + after|
    ensures TupleSize(before + address + size + after, addressCells, sizeCells, i) == BigEndian(size)
  {
    var bytes := before + address + size + after;
    TupleEnds((addressCells + sizeCells) * 4, i);
    var start := i * ((addressCells + sizeCells) * 4) + addressCells * 4;
    assert |address| + |size| == (addressCells + sizeCells) * 4 && start == |before| + |address|;
    assert bytes[start..start + |size|] == size;
  }

  /** `parse_device_tree_memory_reg_size`. */
  method ParseMemoryRegSize(bytes: seq<Byte>, addressCells: nat, sizeCells: nat) returns (r: Option<nat>)
    ensures IsTotal(bytes, addressCells, sizeCells, r)
  {
    if addressCells + sizeCells > USIZE_MAX {
      return None;
    }
    var width := (addressCells + sizeCells) * 4;
    if width > USIZE_MAX {
      return None;
    }
    if width == 0 || |bytes| % width != 0 {
      return None;
    }
    var n := Tuples(bytes, addressCells, sizeCells);
    var total := 0;
    var i := 0;
    while i < n
      invariant 0 <= i <= n && i * width <= |bytes|
      invariant total == TotalSize(bytes, addressCells, sizeCells, i) <= U64_MAX
      invariant i > 0 ==> sizeCells <= 2
    {
      TupleEnds(width, i);
      TotalGrows(bytes, addressCells, sizeCells, i + 1, n);
      var tuple := bytes[i * width..i * width + width];
      var size := ParseCellValue(tuple[addressCells * 4..], sizeCells);
      if size.None? {
        return None;
      }
      assert tuple[addressCells * 4..][..sizeCells * 4] == bytes[i * width + addressCells * 4..i * width + addressCells * 4 + sizeCells * 4];
      if total + size.value > U64_MAX {
        return None;
      }
      total := total + size.value;
      i := i + 1;
    }
    r := Some(total);
  }
}
