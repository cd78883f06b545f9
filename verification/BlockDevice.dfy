/** The raw device: positioned sequential reads and writes that may fail. */
module BlockDevices {
  import opened Bytes

  class BlockDevice {
    var content: seq<byte>
    var pos: nat
    /** A reliable device never fails an access that lies inside it. */
    const reliable: bool
    /** The content after every write so far, finished or torn. */
    ghost var history: seq<seq<byte>>

    constructor (bytes: seq<byte>, reliable: bool)
      ensures content == bytes && pos == 0 && this.reliable == reliable && history == []
    {
      content, pos, history := bytes, 0, [];
      this.reliable := reliable;
    }

    method Seek(p: nat) returns (ok: bool)
      modifies this`pos
      ensures ok ==> pos == p
      ensures reliable ==> ok
    {
      ok := true;
      if !reliable {
        ok := *;
      }
      if ok {
        pos := p;
      }
    }

    /** Reads up to `n` bytes; fewer come back at the end of the device. */
    method ReadSequential(n: nat) returns (ok: bool, data: seq<byte>)
      modifies this`pos
      ensures ok ==> data == content[if old(pos) < |content| then old(pos) else |content|..
                                     if old(pos) + n < |content| then old(pos) + n else |content|]
      ensures ok ==> pos == old(pos) + |data|
      ensures reliable ==> ok
    {
      ok, data := true, [];
      if !reliable {
        ok := *;
      }
      if ok {
        var lo := if pos < |content| then pos else |content|;
        var hi := if pos + n < |content| then pos + n else |content|;
        data := content[lo..hi];
        pos := pos + |data|;
      }
    }

    /** A failed write may leave any prefix of `data` on the device. */
    method WriteSequential(data: seq<byte>) returns (ok: bool)
      modifies this
      ensures |content| == |old(content)|
      ensures ok ==> old(pos) + |data| <= |content| && content == Splice(old(content), old(pos), data)
                     && pos == old(pos) + |data|
      ensures forall i | 0 <= i < |content| && !(old(pos) <= i < old(pos) + |data|) :: content[i] == old(content[i])
      ensures history == old(history) + [content]
      ensures reliable && old(pos) + |data| <= |content| ==> ok
    {
      ok := pos + |data| <= |content|;
      var done := |data|;
      if !ok {
        done := 0;
      } else if !reliable {
        ok := *;
        if !ok {
          done :| 0 <= done <= |data|;
        }
      }
      if done > 0 {
        content := Splice(content, pos, data[..done]);
      }
      if ok {
        assert data[..done] == data;
        pos := pos + |data|;
        content := content;
      }
      history := history + [content];
    }
  }
}
