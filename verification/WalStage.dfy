/** The log writer's staging buffer (src/wal.rs): a block is written with its records and zeros, although the
    buffer is reused and cleared only where it has to be. */
module WalStage {
  import opened Keys

  datatype Appended = Done | TooLarge | RegionFull

  class Stage {
    const buf: array<Byte>
    var len: nat
    /** Everything from here on is known to be zero. */
    var dirtyTo: nat
    var groupOpen: bool
    /** The region's blocks written so far, and how many there are room for. */
    var written: seq<seq<Byte>>
    const room: nat

    ghost predicate Valid()
      reads this, buf
    {
      && len <= buf.Length && dirtyTo <= buf.Length && |written| <= room
      && (forall i :: len <= i < buf.Length && dirtyTo <= i ==> buf[i] == 0)
    }

    /** The staged records. */
    ghost function Staged(): seq<Byte>
      reads this, buf
      requires Valid()
    {
      buf[..len]
    }

    constructor (block: nat, room: nat)
      ensures Valid() && fresh(buf) && buf.Length == block && Staged() == [] && written == [] && this.room == room
              && !groupOpen
    {
      buf := new Byte[block](_ => 0);
      len, dirtyTo, groupOpen, written := 0, 0, false, [];
      this.room := room;
    }

    /** `write_stage`: the block is the staged records and zeros. */
    method WriteStage() returns (ok: bool)
      requires Valid()
      modifies this`len, this`dirtyTo, this`written, buf
      ensures Valid() && ok == (|old(written)| < room)
      ensures ok ==> Staged() == []
      ensures ok ==> written == old(written) + [old(Staged()) + seq(buf.Length - old(len), _ => 0)]
      ensures !ok ==> written == old(written) && Staged() == old(Staged()) && dirtyTo == old(dirtyTo)
    {
      if |written| >= room {
        return false;
      }
      var i := len;
      while i < dirtyTo
        invariant len == old(len) && dirtyTo == old(dirtyTo) && written == old(written)
        invariant len <= i <= buf.Length && (i <= dirtyTo || i == len)
        invariant forall j :: len <= j < i ==> buf[j] == 0
        invariant forall j :: 0 <= j < buf.Length && (j < len || j >= i) ==> buf[j] == old(buf[j])
      {
        buf[i] := 0;
        i := i + 1;
      }
      dirtyTo := len;
      assert buf[..] == old(buf[..len]) + seq(buf.Length - len, _ => 0);
      written := written + [buf[..]];
      len := 0;
      return true;
    }

    /** Copies an encoded record behind the staged ones. */
    method Copy(record: seq<Byte>)
      requires Valid() && len + |record| <= buf.Length
      modifies this`len, buf
      ensures Valid() && Staged() == old(Staged()) + record && len == old(len) + |record|
    {
      var n := len;
      for i := 0 to |record|
        invariant len == n
        invariant forall j :: 0 <= j < i ==> buf[n + j] == record[j]
        invariant forall j :: 0 <= j < buf.Length && (j < n || j >= n + i) ==> buf[j] == old(buf[j])
      {
        buf[n + i] := record[i];
      }
      len := n + |record|;
      assert buf[..len] == old(buf[..len]) + record;
    }

    /** `append_inner`: a group never spreads over two blocks. */
    method Append(record: seq<Byte>, more: bool) returns (r: Appended)
      requires Valid()
      modifies this, buf
      ensures Valid()
      ensures r.TooLarge? <==> |record| > buf.Length || (old(len) + |record| > buf.Length && old(groupOpen))
      ensures r.RegionFull? ==> |old(written)| >= room
      ensures !r.Done? ==> written == old(written) && Staged() == old(Staged()) && groupOpen == old(groupOpen)
      ensures r.Done? ==> groupOpen == more
      ensures r.Done? && old(len) + |record| <= buf.Length ==>
                written == old(written) && Staged() == old(Staged()) + record
      ensures r.Done? && old(len) + |record| > buf.Length ==> Staged() == record
      ensures r.Done? && old(len) + |record| > buf.Length ==>
                written == old(written) + [old(Staged()) + seq(buf.Length - old(len), _ => 0)]
    {
      if |record| > buf.Length {
        return TooLarge;
      }
      if len + |record| > buf.Length {
        if groupOpen {
          return TooLarge;
        }
        var ok := WriteStage();
        if !ok {
          return RegionFull;
        }
      }
      Copy(record);
      groupOpen := more;
      return Done;
    }

    /** `truncate_stage`: the discarded bytes stay behind, inside the dirty mark. */
    method Truncate(n: nat)
      requires Valid() && n <= len
      modifies this`len, this`dirtyTo, this`groupOpen
      ensures Valid() && Staged() == old(Staged())[..n] && !groupOpen
    {
      if len > dirtyTo {
        dirtyTo := len;
      }
      len := n;
      groupOpen := false;
    }

    /** A finished recovery read blocks through the buffer: nothing in it is known to be zero. */
    method Recovered(block: seq<Byte>)
      requires Valid() && |block| == buf.Length
      modifies this`len, this`dirtyTo, this`groupOpen, buf
      ensures Valid() && Staged() == [] && !groupOpen && buf[..] == block && dirtyTo == buf.Length
    {
      forall i | 0 <= i < buf.Length {
        buf[i] := block[i];
      }
      len, dirtyTo, groupOpen := 0, buf.Length, false;
    }
  }
}
