/**
 * Any code that works on a partition through its cursor: it seeks, reads and writes, and it may put the cursor back by
 * assigning a position that the cursor had before. The FAT code is such a client, whatever the partition holds.
 */
module Clients {
  import opened Bytes
  import opened DeviceWrappers
  import opened Partitions

  datatype Access = Seek(pos: int) | Read(size: nat) | Write(data: seq<byte>) | Restore(k: nat)

  datatype Answer = Thrown | Done | Got(data: seq<byte>)

  /** What a client does next, from all the answers it got so far. */
  type Client = seq<Answer> -> Access

  /**
   * The first `steps` accesses of a client. Whatever it does and wherever it stops, the cursor stays inside the
   * partition and no byte outside the partition changes.
   */
  method Drive(part: Partition, client: Client, steps: nat) returns (answers: seq<Answer>)
    requires part.Valid()
    modifies part, part.dw, part.dw.file`pos
    ensures part.Valid() && |answers| == steps
    ensures part.partStart <= part.offset <= part.partStart + part.partLen
    ensures part.dw.Valid()
    ensures forall o: nat | !(part.partStart <= o < part.partStart + part.partLen) ::
              part.dw.At(o) == old(part.dw.At(o))
  {
    Outside(part);
    answers := [];
    var positions := [part.offset];
    while |answers| < steps
      invariant |answers| <= steps && part.Valid()
      invariant forall k | 0 <= k < |positions| :: part.partStart <= positions[k] <= part.partStart + part.partLen
    {
      var answer := Perform(part, client(answers), positions);
      answers, positions := answers + [answer], positions + [part.offset];
    }
    Outside(part);
  }

  method Perform(part: Partition, access: Access, positions: seq<nat>) returns (answer: Answer)
    requires part.Valid()
    requires forall k | 0 <= k < |positions| :: part.partStart <= positions[k] <= part.partStart + part.partLen
    modifies part, part.dw, part.dw.file`pos
    ensures part.Valid() && part.partStart <= part.offset <= part.partStart + part.partLen
  {
    var ok;
    match access
    case Seek(pos) =>
      ok := part.Seek(pos);
      answer := if ok then Done else Thrown;
    case Read(size) =>
      var data;
      ok, data := part.Read(size);
      answer := if ok then Got(data) else Thrown;
    case Write(data) =>
      ok := part.Write(data);
      answer := if ok then Done else Thrown;
    case Restore(k) =>
      answer := Thrown;
      if k < |positions| {
        part.offset := positions[k];
        answer := Done;
      }
  }

  lemma Outside(part: Partition)
    requires part.Valid()
    ensures part.dw.Valid() && part.partStart <= part.offset <= part.partStart + part.partLen
    ensures forall o: nat | !(part.partStart <= o < part.partStart + part.partLen) :: part.dw.At(o) == part.outside(o)
  {
    forall o: nat | !(part.partStart <= o < part.partStart + part.partLen) ensures part.dw.At(o) == part.outside(o) {
      part.View(o);
    }
    hide DeviceWrapper.At;
  }
}
