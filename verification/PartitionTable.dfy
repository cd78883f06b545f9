/** Partition tables: the GPT that names its partitions, and the MBR with four of them. */
module PartitionTables {
  import opened Arith
  import opened Bytes
  import opened DeviceWrappers
  import opened Names
  import opened BootSectors

  const TWO64 := 0x1_0000_0000_0000_0000

  function U64(x: int): (r: nat)
    ensures r < TWO64
    ensures 0 <= x < TWO64 ==> r == x
  {
    x % TWO64
  }

  function Le64(s: seq<byte>, off: nat): nat
    requires off + 8 <= |s|
  {
    Le32(s, off) + TWO32 * Le32(s, off + 4)
  }

  /** What a reader of the device sees. */
  type View = nat -> byte

  ghost function Window(view: View, start: nat, len: nat): (r: seq<byte>)
    ensures |r| == len && forall i | 0 <= i < len :: r[i] == view(start + i)
  {
    seq(len, i requires 0 <= i => view(start + i))
  }

  // ----- GPT -----

  /** Section 5.3 of the UEFI specification: the header in the second sector. */
  predicate IsGpt(h: seq<byte>)
    requires |h| == 512
  {
    h[0..8] == [0x45, 0x46, 0x49, 0x20, 0x50, 0x41, 0x52, 0x54] && Le64(h, 24) == 1
  }

  function EntryOffset(h: seq<byte>, i: nat): nat
    requires |h| == 512
  {
    U64(U64(Le64(h, 72) * 512) + U64(Le32(h, 84) * i))
  }

  function PartitionName(e: seq<byte>): Name
    requires |e| == 128
  {
    var u := Units(e[56..128]);
    var end := IndexOf(u, 0);
    if end >= 0 then u[..end] else u
  }

  predicate IsEmpty(e: seq<byte>)
    requires |e| == 128
  {
    forall b | 0 <= b < 16 :: e[b] == 0
  }

  const CONFIG: Name := [0x43, 0x4F, 0x4E, 0x46, 0x49, 0x47]

  /** An entry in use with the name of the configuration partition. */
  predicate IsConfig(e: seq<byte>)
    requires |e| == 128
  {
    !IsEmpty(e) && PartitionName(e) == CONFIG
  }

  /** The place of a partition in bytes, in 64-bit arithmetic. */
  function EntryStart(e: seq<byte>): nat
    requires |e| == 128
  {
    U64(Le64(e, 32) * 512)
  }

  function EntryLength(e: seq<byte>): nat
    requires |e| == 128
  {
    U64(U64(Le64(e, 40) - Le64(e, 32) + 1) * 512)
  }

  ghost function Header(view: View): (h: seq<byte>)
    ensures |h| == 512
  {
    Window(view, 512, 512)
  }

  ghost function EntryAt(view: View, i: nat): (e: seq<byte>)
    ensures |e| == 128
  {
    Window(view, EntryOffset(Header(view), i), 128)
  }

  /** Entry `i` is the first one of the table for a configuration partition. */
  ghost predicate FirstConfig(view: View, i: nat) {
    && IsGpt(Header(view)) && i < Le32(Header(view), 80) && IsConfig(EntryAt(view, i))
    && forall j | 0 <= j < i :: !IsConfig(EntryAt(view, j))
  }

  ghost predicate NoConfig(view: View) {
    IsGpt(Header(view)) ==> forall j | 0 <= j < Le32(Header(view), 80) :: !IsConfig(EntryAt(view, j))
  }

  /** A device of this size has all of the run, and the block that its end lies in. */
  predicate Within(size: nat, start: nat, len: nat) {
    ((start + len) / BLOCK + 1) * BLOCK <= size
  }

  lemma WithinIsReachable(dw: DeviceWrapper, start: nat, len: nat)
    requires Within(|dw.file.content|, start, len)
    ensures Reachable(dw.cache, dw.file.content, start, len)
  {
    forall b | start / BLOCK <= b <= (start + len) / BLOCK ensures Readable(dw.cache, dw.file.content, b) {
      MulLe(b + 1, (start + len) / BLOCK + 1, BLOCK);
    }
  }

  /** The device has the header, and the table that it describes. */
  ghost predicate TableWithin(view: View, size: nat) {
    && Within(size, 512, 512)
    && (IsGpt(Header(view)) ==>
          forall i | 0 <= i < Le32(Header(view), 80) :: Within(size, EntryOffset(Header(view), i), 128))
  }

  /** Reads a run of bytes; the view stays what it is. */
  method ReadWindow(dw: DeviceWrapper, start: nat, len: nat, ghost view: View) returns (ok: bool, data: seq<byte>)
    requires dw.Valid() && forall o: nat :: dw.At(o) == view(o)
    modifies dw`cache, dw.file`pos
    ensures dw.Valid() && forall o: nat :: dw.At(o) == view(o)
    ensures ok ==> data == Window(view, start, len)
    ensures dw.file.reliable && Within(|dw.file.content|, start, len) ==> ok
  {
    if Within(|dw.file.content|, start, len) {
      WithinIsReachable(dw, start, len);
    }
    hide Reachable, DeviceWrapper.At;
    ok, data := dw.Pread(len, start);
  }

  /** The scan for the configuration partition: the first entry in use with its name, if there is one. */
  method FindConfigPartition(dw: DeviceWrapper, ghost view: View)
    returns (ok: bool, found: bool, start: nat, len: nat, ghost i: nat)
    requires dw.Valid() && forall o: nat :: dw.At(o) == view(o)
    modifies dw`cache, dw.file`pos
    ensures dw.Valid() && forall o: nat :: dw.At(o) == view(o)
    ensures ok && !found ==> NoConfig(view)
    ensures ok && found ==>
      FirstConfig(view, i) && start == EntryStart(EntryAt(view, i)) && len == EntryLength(EntryAt(view, i))
    ensures dw.file.reliable && TableWithin(view, |dw.file.content|) ==> ok
  {
    hide IsConfig, EntryOffset, IsGpt, Window, EntryStart, EntryLength, Le32, Le64, Within;
    found, start, len, i := false, 0, 0, 0;
    var h;
    ok, h := ReadWindow(dw, 512, 512, view);
    if !ok || !IsGpt(h) {
      return;
    }
    var k := 0;
    while k < Le32(h, 80)
      invariant dw.Valid() && forall o: nat :: dw.At(o) == view(o)
      invariant ok && k <= Le32(h, 80)
      invariant forall j | 0 <= j < k :: !IsConfig(EntryAt(view, j))
    {
      var e;
      ok, e := ReadWindow(dw, EntryOffset(h, k), 128, view);
      if !ok {
        return;
      }
      assert e == EntryAt(view, k);
      if IsConfig(e) {
        return true, true, EntryStart(e), EntryLength(e), k;
      }
      k := k + 1;
    }
  }

  // ----- MBR -----

  /** Where an MBR partition lies: the products are computed in 32 bits. */
  function MbrStart(m: seq<byte>, nr: nat): nat
    requires |m| == 512 && 1 <= nr <= 4
  {
    U32(Le32(m, 446 + 16 * (nr - 1) + 8) * 512)
  }

  function MbrLength(m: seq<byte>, nr: nat): nat
    requires |m| == 512 && 1 <= nr <= 4
  {
    U32(Le32(m, 446 + 16 * (nr - 1) + 12) * 512)
  }

  predicate MbrHas(m: seq<byte>, nr: nat)
    requires |m| == 512 && 1 <= nr <= 4
  {
    && m[510] == 0x55 && m[511] == 0xAA
    && Le32(m, 446 + 16 * (nr - 1) + 8) != 0 && Le32(m, 446 + 16 * (nr - 1) + 12) != 0
  }

  /** The device has everything that is read to place partition `nr`. */
  ghost predicate PlaceWithin(view: View, size: nat, nr: int) {
    && Within(size, 512, 512) && Within(size, 0, 512)
    && (IsGpt(Header(view)) && nr >= 1 ==>
          Within(size, U64(U64(Le64(Header(view), 72) * 512) + U32(Le32(Header(view), 84) * (nr - 1))), 128))
  }

  /** `fatPartition`: entry `nr` of the GPT when there is one, else of the MBR; errors otherwise. */
  method FatPartitionPlace(dw: DeviceWrapper, nr: int, ghost view: View) returns (ok: bool, start: nat, len: nat)
    requires dw.Valid() && forall o: nat :: dw.At(o) == view(o)
    modifies dw`cache, dw.file`pos
    ensures dw.Valid() && forall o: nat :: dw.At(o) == view(o)
    ensures ok ==> 1 <= nr <= 4
    ensures ok && IsGpt(Header(view)) ==>
      var e := Window(view, U64(U64(Le64(Header(view), 72) * 512) + U32(Le32(Header(view), 84) * (nr - 1))), 128);
      nr <= Le32(Header(view), 80) && start == EntryStart(e) && len == EntryLength(e)
    ensures ok && !IsGpt(Header(view)) ==>
      var m := Window(view, 0, 512);
      MbrHas(m, nr) && start == MbrStart(m, nr) && len == MbrLength(m, nr)
    ensures dw.file.reliable && PlaceWithin(view, |dw.file.content|, nr) && 1 <= nr <= 4 ==>
      (ok <==> if IsGpt(Header(view)) then nr <= Le32(Header(view), 80) else MbrHas(Window(view, 0, 512), nr))
  {
    hide Within, Window, EntryStart, EntryLength, Le32, Le64, IsGpt, MbrStart, MbrLength, MbrHas;
    start, len := 0, 0;
    if nr > 4 || nr < 1 {
      return false, 0, 0;
    }
    var h;
    ok, h := ReadWindow(dw, 512, 512, view);
    if !ok {
      return;
    }
    if IsGpt(h) {
      if nr > Le32(h, 80) {
        return false, 0, 0;
      }
      var e;
      ok, e := ReadWindow(dw, U64(U64(Le64(h, 72) * 512) + U32(Le32(h, 84) * (nr - 1))), 128, view);
      if ok {
        start, len := EntryStart(e), EntryLength(e);
      }
      return;
    }
    var m;
    ok, m := ReadWindow(dw, 0, 512, view);
    if ok {
      if !MbrHas(m, nr) {
        return false, 0, 0;
      }
      start, len := MbrStart(m, nr), MbrLength(m, nr);
    }
  }
}
